/** lib/clown-club/phaser/ThemeLoader.ts: choosing the active theme from
    the theme configuration and the list of images each scene asks Phaser
    to load for it. A call to `scene.load.image(key, path)` is a `Load`
    value, and a preload function returns the loads in call order. */
module ThemeLoader {
  import opened Wrappers
  import opened Text
  import opened OrderedMap

  datatype Mode = Unified | Layered

  datatype Building = Building(sprite: string, x: int, y: int, labelText: string)

  datatype Buildings = Buildings(left: Building, center: Building, right: Building)

  datatype Layers = Layers(sky: string, horizon: string, ground: string)

  datatype Prop = Prop(sprite: string, x: int, y: int)

  datatype LobbyTheme = LobbyTheme(mode: Option<Mode>, background: Option<string>, layers: Option<Layers>,
                                   buildings: Option<Buildings>, props: seq<Prop>)

  /** The arcade and record-store themes share one shape. */
  datatype SceneTheme = SceneTheme(mode: Option<Mode>, background: Option<string>, props: Option<seq<Prop>>)

  datatype Theme = Theme(name: string, lobby: LobbyTheme, arcade: Option<SceneTheme>, records: Option<SceneTheme>)

  datatype ThemeConfig = ThemeConfig(activeTheme: string, themes: Assoc<string, Theme>)

  datatype Load = Load(key: string, path: string)

  // `THEME_ASSET_KEYS`
  const Background := "theme-background"
  const Sky := "theme-sky"
  const Horizon := "theme-horizon"
  const Ground := "theme-ground"
  const BuildingLeft := "theme-building-left"
  const BuildingCenter := "theme-building-center"
  const BuildingRight := "theme-building-right"
  const PropPrefix := "theme-prop-"
  const ArcadeBackground := "theme-arcade-background"
  const ArcadePropPrefix := "theme-arcade-prop-"
  const RecordsBackground := "theme-records-background"
  const RecordsPropPrefix := "theme-records-prop-"

  const BasePath := "/assets/themes/"

  function Asset(name: string): string { BasePath + name }

  function PropKey(prefix: string, index: nat): string { prefix + NatToString(index) }

  /** JavaScript truthiness of an optional string. */
  predicate Truthy(s: Option<string>) { s.Some? && s.value != "" }

  // ---------------------------------------------------------------------
  // Choosing the theme
  // ---------------------------------------------------------------------

  /** `getActiveTheme`: the named theme, else the one called "default";
      undefined (None) when neither exists. */
  function ActiveTheme(config: ThemeConfig): (r: Option<Theme>)
    ensures HasKey(config.themes, config.activeTheme) ==> r == Get(config.themes, config.activeTheme) && r.Some?
    ensures !HasKey(config.themes, config.activeTheme) ==> r == Get(config.themes, "default")
    ensures r.None? <==> !HasKey(config.themes, config.activeTheme) && !HasKey(config.themes, "default")
  {
    GetSpec(config.themes, config.activeTheme);
    GetSpec(config.themes, "default");
    match Get(config.themes, config.activeTheme)
    case Some(t) => Some(t)
    case None => Get(config.themes, "default")
  }

  /** `getLobbyTheme`; None where the source would read `.lobby` of
      undefined and throw. */
  function LobbyOf(config: ThemeConfig): (r: Option<LobbyTheme>)
    ensures r.Some? <==> ActiveTheme(config).Some?
    ensures r.Some? ==> r.value == ActiveTheme(config).value.lobby
  {
    match ActiveTheme(config)
    case Some(t) => Some(t.lobby)
    case None => None
  }

  /** `getArcadeTheme`. */
  function ArcadeOf(config: ThemeConfig): (r: Option<SceneTheme>)
    ensures ActiveTheme(config).None? ==> r.None?
    ensures ActiveTheme(config).Some? ==> r == ActiveTheme(config).value.arcade
  {
    match ActiveTheme(config)
    case Some(t) => t.arcade
    case None => None
  }

  /** `getRecordsTheme`. */
  function RecordsOf(config: ThemeConfig): (r: Option<SceneTheme>)
    ensures ActiveTheme(config).None? ==> r.None?
    ensures ActiveTheme(config).Some? ==> r == ActiveTheme(config).value.records
  {
    match ActiveTheme(config)
    case Some(t) => t.records
    case None => None
  }

  // ---------------------------------------------------------------------
  // Lobby
  // ---------------------------------------------------------------------

  /** Prop i is the first with its sprite. */
  predicate FirstOfSprite(props: seq<Prop>, i: nat)
    requires i < |props|
  {
    forall j :: 0 <= j < i ==> props[j].sprite != props[i].sprite
  }

  /** The indices the lobby's `loadedProps` set lets through, in order. */
  function FreshPropIndices(props: seq<Prop>): (r: seq<nat>)
    ensures forall k :: 0 <= k < |r| ==> r[k] < |props| && FirstOfSprite(props, r[k])
    ensures forall i :: 0 <= i < |props| && FirstOfSprite(props, i) ==> i in r
    ensures forall a, b :: 0 <= a < b < |r| ==> r[a] < r[b]
  {
    if |props| == 0 then []
    else
      var n := |props| - 1;
      var front := props[..n];
      var rest := FreshPropIndices(front);
      assert forall i :: 0 <= i < n ==> (FirstOfSprite(front, i) <==> FirstOfSprite(props, i)) by {
        forall i | 0 <= i < n ensures FirstOfSprite(front, i) <==> FirstOfSprite(props, i) {
          assert forall j :: 0 <= j <= i ==> front[j] == props[j];
        }
      }
      if FirstOfSprite(props, n) then rest + [n] else rest
  }

  /** The sprites of the props that are loaded, in load order. */
  function LoadedSprites(props: seq<Prop>): (r: seq<string>)
    ensures |r| == |FreshPropIndices(props)|
    ensures forall k :: 0 <= k < |r| ==> r[k] == props[FreshPropIndices(props)[k]].sprite
  {
    var idx := FreshPropIndices(props);
    seq(|idx|, k requires 0 <= k < |idx| => props[idx[k]].sprite)
  }

  /** Every sprite in the list is loaded, and loaded once. */
  lemma FreshPropsCoverSprites(props: seq<Prop>)
    ensures forall i :: 0 <= i < |props| ==> props[i].sprite in LoadedSprites(props)
    ensures forall a, b :: 0 <= a < b < |FreshPropIndices(props)| ==>
      props[FreshPropIndices(props)[a]].sprite != props[FreshPropIndices(props)[b]].sprite
  {
    var r := FreshPropIndices(props);
    var loaded := LoadedSprites(props);
    forall i | 0 <= i < |props| ensures props[i].sprite in loaded {
      var f := FirstIndexOf(props, i);
      assert f in r;
      var k :| 0 <= k < |r| && r[k] == f;
      assert loaded[k] == props[i].sprite;
    }
    forall a, b | 0 <= a < b < |r| ensures props[r[a]].sprite != props[r[b]].sprite {
      assert r[a] < r[b] && FirstOfSprite(props, r[b]);
    }
  }

  /** The first prop with the same sprite as prop i. */
  function FirstIndexOf(props: seq<Prop>, i: nat): (f: nat)
    requires i < |props|
    ensures f <= i && props[f].sprite == props[i].sprite && FirstOfSprite(props, f)
  {
    if FirstOfSprite(props, i) then i
    else
      var j :| 0 <= j < i && props[j].sprite == props[i].sprite;
      FirstIndexOf(props, j)
  }

  /** The loads for the props at the given indices. */
  function PropLoads(prefix: string, props: seq<Prop>, indices: seq<nat>): (r: seq<Load>)
    requires forall k :: 0 <= k < |indices| ==> indices[k] < |props|
    ensures |r| == |indices|
    ensures forall k :: 0 <= k < |r| ==> r[k] == Load(PropKey(prefix, indices[k]), Asset(props[indices[k]].sprite))
  {
    seq(|indices|, k requires 0 <= k < |indices| => Load(PropKey(prefix, indices[k]), Asset(props[indices[k]].sprite)))
  }

  /** The scenery loads of a lobby, before its props. */
  function LobbySceneryLoads(t: LobbyTheme): seq<Load> {
    if t.mode == Some(Unified) && Truthy(t.background) then
      [Load(Background, Asset(t.background.value))]
    else if t.layers.Some? then
      [Load(Sky, Asset(t.layers.value.sky)), Load(Horizon, Asset(t.layers.value.horizon)), Load(Ground, Asset(t.layers.value.ground))]
      + (if t.buildings.Some? then
           [Load(BuildingLeft, Asset(t.buildings.value.left.sprite)),
            Load(BuildingCenter, Asset(t.buildings.value.center.sprite)),
            Load(BuildingRight, Asset(t.buildings.value.right.sprite))]
         else [])
    else []
  }

  /** `preloadLobbyThemeAssets`: a unified background replaces the layers
      and buildings; props are loaded in both modes, one per distinct
      sprite, keyed by the index of the prop that first uses it. */
  function PreloadLobby(t: LobbyTheme): (r: seq<Load>)
    ensures |r| >= |LobbySceneryLoads(t)| && r[..|LobbySceneryLoads(t)|] == LobbySceneryLoads(t)
    ensures forall k :: |LobbySceneryLoads(t)| <= k < |r| ==>
      exists i :: 0 <= i < |t.props| && FirstOfSprite(t.props, i)
        && r[k] == Load(PropKey(PropPrefix, i), Asset(t.props[i].sprite))
    ensures forall i :: 0 <= i < |t.props| && FirstOfSprite(t.props, i) ==>
      Load(PropKey(PropPrefix, i), Asset(t.props[i].sprite)) in r
  {
    FreshPropsAppended(LobbySceneryLoads(t), PropPrefix, t.props);
    LobbySceneryLoads(t) + PropLoads(PropPrefix, t.props, FreshPropIndices(t.props))
  }

  /** Loads of the first prop of each sprite, after some earlier loads:
      the earlier loads stay in front, and every later one is such a prop. */
  lemma FreshPropsAppended(front: seq<Load>, prefix: string, props: seq<Prop>)
    ensures var r := front + PropLoads(prefix, props, FreshPropIndices(props));
      && |r| >= |front| && r[..|front|] == front
      && (forall k :: |front| <= k < |r| ==>
            exists i :: 0 <= i < |props| && FirstOfSprite(props, i)
              && r[k] == Load(PropKey(prefix, i), Asset(props[i].sprite)))
      && (forall i :: 0 <= i < |props| && FirstOfSprite(props, i) ==>
            Load(PropKey(prefix, i), Asset(props[i].sprite)) in r)
  {
    var idx := FreshPropIndices(props);
    var loads := PropLoads(prefix, props, idx);
    var r := front + loads;
    forall k | |front| <= k < |r|
      ensures exists i :: (0 <= i < |props| && FirstOfSprite(props, i)
                           && r[k] == Load(PropKey(prefix, i), Asset(props[i].sprite)))
    {
      var i := idx[k - |front|];
      assert r[k] == loads[k - |front|];
      assert 0 <= i < |props| && FirstOfSprite(props, i);
    }
    forall i | 0 <= i < |props| && FirstOfSprite(props, i)
      ensures Load(PropKey(prefix, i), Asset(props[i].sprite)) in r
    {
      var k :| 0 <= k < |idx| && idx[k] == i;
      assert r[|front| + k] == loads[k];
    }
  }

  /** Which scenery a lobby loads: the background exactly in unified mode
      with a background; the three layers exactly otherwise when layers
      exist; the buildings only together with the layers. */
  lemma LobbyScenery(t: LobbyTheme)
    ensures var s := LobbySceneryLoads(t);
      (Load(Background, Asset(t.background.GetOr(""))) in s <==> t.mode == Some(Unified) && Truthy(t.background))
      && (s == [] <==> !(t.mode == Some(Unified) && Truthy(t.background)) && t.layers.None?)
      && (|s| == 6 <==> !(t.mode == Some(Unified) && Truthy(t.background)) && t.layers.Some? && t.buildings.Some?)
  {
    var s := LobbySceneryLoads(t);
    if !(t.mode == Some(Unified) && Truthy(t.background)) && t.layers.Some? {
      assert s[0].key == Sky && s[1].key == Horizon && s[2].key == Ground;
      if t.buildings.Some? {
        assert s[3].key == BuildingLeft && s[4].key == BuildingCenter && s[5].key == BuildingRight;
      }
      assert forall k :: 0 <= k < |s| ==> s[k].key != Background;
    }
  }

  /** `checkLobbyAssetsExist`: the path it probes, `background || layers?.sky`;
      None means it answers false without asking the server. */
  function LobbyProbePath(t: LobbyTheme): (r: Option<string>)
    ensures r.Some? ==> r.value != "" && (r == t.background || (t.layers.Some? && r.value == t.layers.value.sky))
    ensures r.None? <==> !Truthy(t.background) && (t.layers.None? || t.layers.value.sky == "")
  {
    if Truthy(t.background) then t.background
    else if t.layers.Some? && t.layers.value.sky != "" then Some(t.layers.value.sky)
    else None
  }

  // ---------------------------------------------------------------------
  // Arcade and record store
  // ---------------------------------------------------------------------

  /** `preloadArcadeThemeAssets` / `preloadRecordsThemeAssets`: the
      background in unified mode, then every prop under its own index
      (no de-duplication here). */
  function PreloadScene(backgroundKey: string, propPrefix: string, t: SceneTheme): (r: seq<Load>)
    ensures var bg := if t.mode == Some(Unified) && Truthy(t.background) then 1 else 0;
      var props := t.props.GetOr([]);
      |r| == bg + |props|
      && (bg == 1 ==> r[0] == Load(backgroundKey, Asset(t.background.value)))
      && forall i :: 0 <= i < |props| ==> r[bg + i] == Load(PropKey(propPrefix, i), Asset(props[i].sprite))
  {
    var bg := if t.mode == Some(Unified) && Truthy(t.background) then [Load(backgroundKey, Asset(t.background.value))] else [];
    var props := t.props.GetOr([]);
    bg + seq(|props|, i requires 0 <= i < |props| => Load(PropKey(propPrefix, i), Asset(props[i].sprite)))
  }

  /** A prefix survives concatenation. */
  lemma PrefixOfConcat(prefix: string, s: string)
    ensures StartsWith(prefix + s, prefix)
  {
    assert (prefix + s)[..|prefix|] == prefix;
  }

  /** Every load of a scene keyed under scenePrefix starts with it, and
      every path starts with the theme directory. */
  lemma ScenePrefixes(scenePrefix: string, t: SceneTheme)
    ensures var r := PreloadScene(scenePrefix + "background", scenePrefix + "prop-", t);
      forall k :: 0 <= k < |r| ==> StartsWith(r[k].key, scenePrefix) && StartsWith(r[k].path, BasePath)
  {
    var r := PreloadScene(scenePrefix + "background", scenePrefix + "prop-", t);
    var bg := if t.mode == Some(Unified) && Truthy(t.background) then 1 else 0;
    forall k | 0 <= k < |r| ensures StartsWith(r[k].key, scenePrefix) && StartsWith(r[k].path, BasePath) {
      if k < bg {
        PrefixOfConcat(scenePrefix, "background");
        PrefixOfConcat(BasePath, t.background.value);
      } else {
        PrefixOfConcat(scenePrefix, "prop-" + NatToString(k - bg));
        assert scenePrefix + "prop-" + NatToString(k - bg) == scenePrefix + ("prop-" + NatToString(k - bg));
        PrefixOfConcat(BasePath, t.props.value[k - bg].sprite);
      }
    }
  }

  /** The arcade loads one image per prop (no de-duplication), all under
      the arcade keys and the theme directory. */
  function PreloadArcade(t: SceneTheme): (r: seq<Load>)
    ensures |r| == (if t.mode == Some(Unified) && Truthy(t.background) then 1 else 0) + |t.props.GetOr([])|
    ensures t.mode == Some(Unified) && Truthy(t.background) ==> r[0] == Load(ArcadeBackground, Asset(t.background.value))
    ensures var bg := if t.mode == Some(Unified) && Truthy(t.background) then 1 else 0;
      forall i :: 0 <= i < |t.props.GetOr([])| ==> r[bg + i] == Load(PropKey(ArcadePropPrefix, i), Asset(t.props.GetOr([])[i].sprite))
    ensures forall k :: 0 <= k < |r| ==> StartsWith(r[k].key, "theme-arcade-") && StartsWith(r[k].path, BasePath)
  {
    ScenePrefixes("theme-arcade-", t);
    PreloadScene(ArcadeBackground, ArcadePropPrefix, t)
  }

  /** The record store likewise, under the records keys. */
  function PreloadRecords(t: SceneTheme): (r: seq<Load>)
    ensures |r| == (if t.mode == Some(Unified) && Truthy(t.background) then 1 else 0) + |t.props.GetOr([])|
    ensures t.mode == Some(Unified) && Truthy(t.background) ==> r[0] == Load(RecordsBackground, Asset(t.background.value))
    ensures var bg := if t.mode == Some(Unified) && Truthy(t.background) then 1 else 0;
      forall i :: 0 <= i < |t.props.GetOr([])| ==> r[bg + i] == Load(PropKey(RecordsPropPrefix, i), Asset(t.props.GetOr([])[i].sprite))
    ensures forall k :: 0 <= k < |r| ==> StartsWith(r[k].key, "theme-records-") && StartsWith(r[k].path, BasePath)
  {
    ScenePrefixes("theme-records-", t);
    PreloadScene(RecordsBackground, RecordsPropPrefix, t)
  }

  /** Two props sharing a sprite: the lobby loads the image once, the
      arcade twice. */
  lemma SharedSpriteLoadCounts()
    ensures var props := [Prop("lamp.png", 0, 0), Prop("lamp.png", 50, 0)];
      |PreloadLobby(LobbyTheme(None, None, None, None, props))| == 1
      && |PreloadArcade(SceneTheme(None, None, Some(props)))| == 2
  {
    var props := [Prop("lamp.png", 0, 0), Prop("lamp.png", 50, 0)];
    var idx := FreshPropIndices(props);
    assert FirstOfSprite(props, 0);
    assert props[0].sprite == props[1].sprite;
    assert !FirstOfSprite(props, 1);
    assert props[..1] == [props[0]];
    assert FreshPropIndices(props[..1]) == [0];
    assert idx == FreshPropIndices(props[..1]);
    var arcade := PreloadArcade(SceneTheme(None, None, Some(props)));
    assert |arcade| == 0 + |props|;
  }

  // ---------------------------------------------------------------------
  // Fallback
  // ---------------------------------------------------------------------

  const FallbackLobby := LobbyTheme(
    None, None, Some(Layers("", "", "")),
    Some(Buildings(Building("", 80, 280, "Cafe"), Building("", 400, 260, "Shop"), Building("", 700, 280, "Club"))),
    [])

  /** `getFallbackConfig`. */
  const FallbackConfig := ThemeConfig("procedural", [("procedural", Theme("Procedural (Fallback)", FallbackLobby, None, None))])

  /** `loadThemeConfig`: the parsed file when the request succeeds,
      otherwise the fallback. */
  function LoadThemeConfig(response: Option<ThemeConfig>): (r: ThemeConfig)
    ensures response.Some? ==> r == response.value
    ensures response.None? ==> r == FallbackConfig
  {
    response.GetOr(FallbackConfig)
  }

  /** The fallback selects its own theme, whose lobby has no asset to probe
      (so the scene draws procedurally), and whose preload asks only for
      the empty layer and building paths. */
  lemma FallbackIsProcedural()
    ensures LobbyOf(FallbackConfig) == Some(FallbackLobby)
    ensures LobbyProbePath(FallbackLobby).None?
    ensures forall k :: 0 <= k < |PreloadLobby(FallbackLobby)| ==> PreloadLobby(FallbackLobby)[k].path == BasePath
    ensures |PreloadLobby(FallbackLobby)| == 6
  {
    assert FallbackConfig.themes[0].0 == "procedural";
    assert Asset("") == BasePath;
    assert FreshPropIndices([]) == [];
  }

  /** The scenery keys of a lobby are distinct constants. */
  lemma SceneryKeys(t: LobbyTheme)
    ensures forall k :: 0 <= k < |LobbySceneryLoads(t)| ==>
      LobbySceneryLoads(t)[k].key in {Background, Sky, Horizon, Ground, BuildingLeft, BuildingCenter, BuildingRight}
    ensures forall a, b :: 0 <= a < b < |LobbySceneryLoads(t)| ==> LobbySceneryLoads(t)[a].key != LobbySceneryLoads(t)[b].key
  {
  }

  predicate KeysDistinct(loads: seq<Load>) {
    forall a, b :: 0 <= a < b < |loads| ==> loads[a].key != loads[b].key
  }

  lemma ConcatKeysDistinct(s: seq<Load>, p: seq<Load>)
    requires KeysDistinct(s) && KeysDistinct(p)
    requires forall a, b :: 0 <= a < |s| && 0 <= b < |p| ==> s[a].key != p[b].key
    ensures KeysDistinct(s + p)
  {
    var r := s + p;
    forall a, b | 0 <= a < b < |r| ensures r[a].key != r[b].key {
      if b < |s| {
        assert r[a] == s[a] && r[b] == s[b];
      } else if a < |s| {
        assert r[a] == s[a] && r[b] == p[b - |s|];
      } else {
        assert r[a] == p[a - |s|] && r[b] == p[b - |s|];
      }
    }
  }

  /** The lobby never issues two loads under one key. */
  lemma LobbyKeysDistinct(t: LobbyTheme)
    ensures KeysDistinct(PreloadLobby(t))
  {
    var s := LobbySceneryLoads(t);
    var idx := FreshPropIndices(t.props);
    var props := PropLoads(PropPrefix, t.props, idx);
    assert PreloadLobby(t) == s + props;
    SceneryKeys(t);
    forall a, b | 0 <= a < b < |props| ensures props[a].key != props[b].key {
      PropKeysDistinct(idx, a, b);
    }
    forall a, b | 0 <= a < |s| && 0 <= b < |props| ensures s[a].key != props[b].key {
      PropKeyNotScenery(s[a].key, idx[b]);
    }
    ConcatKeysDistinct(s, props);
  }

  lemma PropKeysDistinct(idx: seq<nat>, a: nat, b: nat)
    requires a < b < |idx| && forall x, y :: 0 <= x < y < |idx| ==> idx[x] < idx[y]
    ensures PropKey(PropPrefix, idx[a]) != PropKey(PropPrefix, idx[b])
  {
    if PropKey(PropPrefix, idx[a]) == PropKey(PropPrefix, idx[b]) {
      PropKeyInjective(PropPrefix, idx[a], idx[b]);
    }
  }

  /** One prefix, different indices: different keys. */
  lemma PropKeyInjective(prefix: string, i: nat, j: nat)
    requires PropKey(prefix, i) == PropKey(prefix, j)
    ensures i == j
  {
    assert NatToString(i) == PropKey(prefix, i)[|prefix|..];
    assert NatToString(j) == PropKey(prefix, j)[|prefix|..];
    ParseNatToString(i);
    ParseNatToString(j);
  }

  /** A prop key ends in a digit; no scenery key does. */
  lemma PropKeyNotScenery(key: string, i: nat)
    requires key in {Background, Sky, Horizon, Ground, BuildingLeft, BuildingCenter, BuildingRight}
    ensures PropKey(PropPrefix, i) != key
  {
    var p := PropKey(PropPrefix, i);
    assert IsDigit(p[|p| - 1]) by {
      assert p[|p| - 1] == NatToString(i)[|NatToString(i)| - 1];
    }
  }

  /** Neither the arcade nor the record store issues two loads under one
      key: the background key does not end in a digit and the prop keys
      differ by index. */
  lemma SceneKeysDistinct(t: SceneTheme)
    ensures KeysDistinct(PreloadArcade(t))
    ensures KeysDistinct(PreloadRecords(t))
  {
    SceneKeysDistinctFor(ArcadeBackground, ArcadePropPrefix, t);
    SceneKeysDistinctFor(RecordsBackground, RecordsPropPrefix, t);
  }

  lemma SceneKeysDistinctFor(backgroundKey: string, prefix: string, t: SceneTheme)
    requires |backgroundKey| > 0 && !IsDigit(backgroundKey[|backgroundKey| - 1])
    ensures KeysDistinct(PreloadScene(backgroundKey, prefix, t))
  {
    var r := PreloadScene(backgroundKey, prefix, t);
    forall a, b | 0 <= a < b < |r| ensures r[a].key != r[b].key {
      SceneKeyPair(backgroundKey, prefix, t, a, b);
    }
  }

  lemma SceneKeyPair(backgroundKey: string, prefix: string, t: SceneTheme, a: nat, b: nat)
    requires |backgroundKey| > 0 && !IsDigit(backgroundKey[|backgroundKey| - 1])
    requires a < b < |PreloadScene(backgroundKey, prefix, t)|
    ensures PreloadScene(backgroundKey, prefix, t)[a].key != PreloadScene(backgroundKey, prefix, t)[b].key
  {
    var r := PreloadScene(backgroundKey, prefix, t);
    var bg := if t.mode == Some(Unified) && Truthy(t.background) then 1 else 0;
    var props := t.props.GetOr([]);
    var j := b - bg;
    assert r[bg + j] == Load(PropKey(prefix, j), Asset(props[j].sprite));
    if a < bg {
      assert r[a].key == backgroundKey;
      PropKeyEndsInDigit(prefix, j);
    } else {
      var i := a - bg;
      assert r[bg + i] == Load(PropKey(prefix, i), Asset(props[i].sprite));
      PropKeysDiffer(prefix, i, j);
    }
  }

  lemma PropKeysDiffer(prefix: string, i: nat, j: nat)
    requires i != j
    ensures PropKey(prefix, i) != PropKey(prefix, j)
  {
    if PropKey(prefix, i) == PropKey(prefix, j) {
      PropKeyInjective(prefix, i, j);
    }
  }

  lemma PropKeyEndsInDigit(prefix: string, i: nat)
    ensures |PropKey(prefix, i)| > 0 && IsDigit(PropKey(prefix, i)[|PropKey(prefix, i)| - 1])
  {
    var p := PropKey(prefix, i);
    assert p[|p| - 1] == NatToString(i)[|NatToString(i)| - 1];
  }
}
