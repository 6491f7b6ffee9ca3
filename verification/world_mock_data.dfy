/** lib/clown-club/debug/worldMockData.ts: the canned world state a debug
    screen shows for a zone and a scenario: who stands where, which doors
    and machines the zone has, and which overlay is open. */
module WorldMockData {
  import opened Wrappers

  datatype PlayerData = PlayerData(id: string, name: string, x: int, y: int, character: string, isVip: Option<bool>)

  datatype ObjectData = ObjectData(id: string, kind: string, x: int, y: int, emoji: string, action: Option<string>, labelText: Option<string>)

  datatype Overlay = NoOverlay | GameSelectorOverlay | ConstructionOverlay | VinylBrowserOverlay | DjControlsOverlay | ReviewsOverlay

  datatype Zone = Lobby | Games | Records

  /** `WorldScenario`, in the order of `SCENARIOS`. */
  datatype Scenario = Default | Multiplayer | Empty | GameSelector | Construction | VinylBrowser | DjControls | Reviews

  datatype WorldState = WorldState(zoneId: Zone, zoneName: string, players: seq<PlayerData>, objects: seq<ObjectData>,
                                   localPlayerId: string, overlayState: Overlay, overlayMessage: Option<string>)

  const LocalPlayerId := "local-player"

  /** `MOCK_PLAYERS`. */
  const MockPlayers: seq<PlayerData> := [
    PlayerData(LocalPlayerId, "You", 400, 480, "clown-1", Some(false)),
    PlayerData("player-2", "Alice", 350, 450, "clown-2", Some(true)),
    PlayerData("player-3", "Bob", 450, 500, "clown-3", Some(false)),
    PlayerData("player-4", "Charlie", 500, 420, "clown-4", Some(false))
  ]

  function Door(id: string, x: int, y: int, action: string, labelText: string): ObjectData {
    ObjectData(id, "door", x, y, "", Some(action), Some(labelText))
  }

  function Thing(id: string, kind: string, x: int, y: int, action: string, labelText: string): ObjectData {
    ObjectData(id, kind, x, y, "", Some(action), Some(labelText))
  }

  /** `ZONE_OBJECTS`. */
  function ZoneObjects(z: Zone): seq<ObjectData> {
    match z
    case Lobby => [
      Door("door-cafe", 189, 315, "under-construction", "Cafe"),
      Door("door-records", 407, 300, "zone-change", "Records"),
      Door("door-arcade", 630, 322, "zone-change", "Arcade")]
    case Games => [
      Door("door-lobby", 92, 376, "zone-change", "Exit"),
      Thing("arcade-caption", "arcade", 249, 316, "launch-game", "Caption Contest"),
      Thing("arcade-board", "arcade", 356, 319, "launch-game", "Board Rush"),
      Thing("arcade-about", "arcade", 459, 319, "launch-game", "About You"),
      Thing("arcade-newlywebs", "arcade", 560, 316, "under-construction", "Newly Webs"),
      Thing("stats-panel", "info", 716, 261, "under-construction", "Leaderboard")]
    case Records => [
      Door("door-lobby", 92, 376, "zone-change", "Exit"),
      Thing("vinyl-browser", "vinyl", 300, 300, "browse-vinyl", "Browse Collection"),
      Thing("dj-booth", "dj", 550, 280, "playback-controls", "DJ Booth"),
      Thing("review-board", "info", 680, 350, "view-reviews", "Reviews")]
  }

  /** `ZONE_NAMES`. */
  function ZoneName(z: Zone): string {
    match z
    case Lobby => "Town Square"
    case Games => "Game Room"
    case Records => "Record Store"
  }

  /** The local player moved to (x, y). */
  function LocalAt(x: int, y: int): PlayerData { MockPlayers[0].(x := x, y := y) }

  /** `MOCK_PLAYERS.map((p, i) => ({ ...p, x: 300 + i * 80, y: baseY + (i % 2) * 50 }))`. */
  function Spread(baseY: int): (r: seq<PlayerData>)
    ensures |r| == |MockPlayers|
    ensures forall i :: 0 <= i < |r| ==> r[i].id == MockPlayers[i].id && r[i].x == 300 + i * 80
  {
    seq(|MockPlayers|, i requires 0 <= i < |MockPlayers| => MockPlayers[i].(x := 300 + i * 80, y := baseY + (i % 2) * 50))
  }

  /** One entry of `WORLD_SCENARIOS`: players, overlay and optional message. */
  datatype ScenarioData = ScenarioData(players: seq<PlayerData>, overlay: Overlay, message: Option<string>)

  function Plain(players: seq<PlayerData>): ScenarioData { ScenarioData(players, NoOverlay, None) }

  /** `WORLD_SCENARIOS[zone][scenario]`. The overlay messages end in an
      emoji that is not modelled. */
  function ScenarioOf(z: Zone, s: Scenario): ScenarioData {
    match z
    case Lobby => (
      match s
      case Multiplayer => Plain(MockPlayers)
      case GameSelector => ScenarioData([MockPlayers[0]], GameSelectorOverlay, None)
      case Construction => ScenarioData([MockPlayers[0]], ConstructionOverlay, Some("The Cafe is coming soon! "))
      case _ => Plain([MockPlayers[0]]))
    case Games => (
      match s
      case Multiplayer => Plain(Spread(450))
      case GameSelector => ScenarioData([LocalAt(400, 500)], GameSelectorOverlay, None)
      case Construction => ScenarioData([LocalAt(400, 500)], ConstructionOverlay, Some("Newly Webs is coming soon! "))
      case VinylBrowser => Plain([MockPlayers[0]])
      case DjControls => Plain([MockPlayers[0]])
      case Reviews => Plain([MockPlayers[0]])
      case _ => Plain([LocalAt(400, 500)]))
    case Records => (
      match s
      case Multiplayer => Plain(Spread(420))
      case GameSelector => Plain([MockPlayers[0]])
      case Construction => Plain([MockPlayers[0]])
      case VinylBrowser => ScenarioData([LocalAt(300, 350)], VinylBrowserOverlay, None)
      case DjControls => ScenarioData([LocalAt(550, 350)], DjControlsOverlay, None)
      case Reviews => ScenarioData([LocalAt(680, 400)], ReviewsOverlay, None)
      case _ => Plain([LocalAt(400, 480)]))
  }

  /** The overlay a scenario is named after. */
  function OwnOverlay(s: Scenario): Overlay {
    match s
    case GameSelector => GameSelectorOverlay
    case Construction => ConstructionOverlay
    case VinylBrowser => VinylBrowserOverlay
    case DjControls => DjControlsOverlay
    case Reviews => ReviewsOverlay
    case _ => NoOverlay
  }

  /** `getWorldMockData`. Every zone defines every scenario with a
      non-empty player list and an overlay, so the `||` fallbacks of the
      source never apply. */
  function WorldMock(z: Zone, s: Scenario): (w: WorldState)
    ensures w.zoneId == z && w.zoneName == ZoneName(z) && w.objects == ZoneObjects(z)
    ensures w.localPlayerId == LocalPlayerId
    ensures w.overlayState == NoOverlay || w.overlayState == OwnOverlay(s)
    ensures w.overlayMessage.Some? <==> w.overlayState == ConstructionOverlay
  {
    var d := ScenarioOf(z, s);
    WorldState(z, ZoneName(z), d.players, ZoneObjects(z), LocalPlayerId, d.overlay, d.message)
  }

  /** The player the screen follows is always on the map, and no id is
      listed twice. */
  lemma LocalPlayerPresent(z: Zone, s: Scenario)
    ensures exists i :: 0 <= i < |WorldMock(z, s).players| && WorldMock(z, s).players[i].id == WorldMock(z, s).localPlayerId
    ensures forall i, j :: 0 <= i < j < |WorldMock(z, s).players| ==> WorldMock(z, s).players[i].id != WorldMock(z, s).players[j].id
  {
    var ps := WorldMock(z, s).players;
    ScenarioPlayers(z, s);
    MockIdsDistinct();
    assert ps[0].id == MockPlayers[0].id == LocalPlayerId;
  }

  /** Every scenario lists a prefix of the mock players, by id. */
  lemma ScenarioPlayers(z: Zone, s: Scenario)
    ensures var ps := ScenarioOf(z, s).players;
      0 < |ps| <= |MockPlayers| && forall i :: 0 <= i < |ps| ==> ps[i].id == MockPlayers[i].id
  {
  }

  lemma MockIdsDistinct()
    ensures forall i, j :: 0 <= i < j < |MockPlayers| ==> MockPlayers[i].id != MockPlayers[j].id
  {
  }

  /** Which overlays each zone can open: the lobby and the game room the
      selector and the construction notice, the record store its three
      record-shop panels. */
  lemma OverlaysByZone(z: Zone, s: Scenario)
    ensures var o := WorldMock(z, s).overlayState;
      (z == Records ==> o in {NoOverlay, VinylBrowserOverlay, DjControlsOverlay, ReviewsOverlay})
      && (z != Records ==> o in {NoOverlay, GameSelectorOverlay, ConstructionOverlay})
      && (o == OwnOverlay(s) <==> OwnOverlay(s) == NoOverlay || ((z == Records) <==> s in {VinylBrowser, DjControls, Reviews}))
  {
  }

  /** In the spread-out scenes the players stand left to right. */
  lemma SpreadLeftToRight(z: Zone)
    requires z != Lobby
    ensures var ps := WorldMock(z, Multiplayer).players;
      forall i, j :: 0 <= i < j < |ps| ==> ps[i].x < ps[j].x
  {
  }

  /** Every zone except the lobby has a door back to it, and object ids are
      distinct within a zone. */
  lemma ZoneExits(z: Zone)
    ensures z != Lobby ==> ZoneObjects(z)[0] == Door("door-lobby", 92, 376, "zone-change", "Exit")
    ensures forall i, j :: 0 <= i < j < |ZoneObjects(z)| ==> ZoneObjects(z)[i].id != ZoneObjects(z)[j].id
  {
  }

  /** `SCENARIOS`. */
  const Scenarios: seq<Scenario> := [Default, Multiplayer, Empty, GameSelector, Construction, VinylBrowser, DjControls, Reviews]

  /** Where a scenario sits in `SCENARIOS`. */
  function ScenarioIndex(s: Scenario): (i: nat)
    ensures i < |Scenarios| && Scenarios[i] == s
  {
    match s
    case Default => 0
    case Multiplayer => 1
    case Empty => 2
    case GameSelector => 3
    case Construction => 4
    case VinylBrowser => 5
    case DjControls => 6
    case Reviews => 7
  }

  /** `getZoneScenarios`: the keys of the zone's scenario table, which in
      every zone are all eight, in the declared order. */
  function ZoneScenarios(z: Zone): (r: seq<Scenario>)
    ensures |r| == 8 && forall s: Scenario :: s in r
    ensures forall i, j :: 0 <= i < j < |r| ==> r[i] != r[j]
  {
    assert forall s: Scenario :: s in Scenarios by {
      forall s: Scenario ensures s in Scenarios {
        var i := ScenarioIndex(s);
        assert Scenarios[i] == s;
      }
    }
    Scenarios
  }
}
