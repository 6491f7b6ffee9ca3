/** lib/clown-club/debug/mockData.ts: the phase lists of each mini-game and
    the canned state a debug screen renders for a (game, phase, role)
    triple. Only `phase`, `isMainCharacter` and `mainCharacterId` are kept;
    the first three phases name the main character, the round summary and
    the game over do not, and the fallback `{ phase }` carries only the
    phase. */
module MockData {
  import opened Wrappers
  import opened OrderedMap

  datatype MockEntry = MockEntry(phase: string, isMainCharacter: Option<bool>, mainCharacterId: Option<string>)

  /** `GAME_PHASES`. */
  const GamePhases: Assoc<string, seq<string>> := [
    ("about-you", ["lobby", "answering", "reveal", "round-summary", "game-over"]),
    ("board-game", ["lobby", "rolling", "moving", "minigame", "results"]),
    ("caption-contest", ["lobby", "captioning", "voting", "results", "game-over"])
  ]

  /** The main character sees the `mc` entry, everyone else `guesser`; both
      carry the same `mainCharacterId`, if any. */
  function RolePair(phase: string, mainId: Option<string>): Assoc<string, MockEntry> {
    [("mc", MockEntry(phase, Some(true), mainId)),
     ("guesser", MockEntry(phase, Some(false), mainId))]
  }

  /** The phases whose canned state names the main character. */
  predicate NamesMainCharacter(phase: string) {
    phase == "lobby" || phase == "answering" || phase == "reveal"
  }

  /** `ABOUT_YOU_MOCK`: both roles for each of the game's five phases. */
  const AboutYouMock: Assoc<string, Assoc<string, MockEntry>> := [
    ("lobby", RolePair("lobby", Some("player-1"))),
    ("answering", RolePair("answering", Some("player-1"))),
    ("reveal", RolePair("reveal", Some("player-1"))),
    ("round-summary", RolePair("round-summary", None)),
    ("game-over", RolePair("game-over", None))
  ]

  /** `MOCK_DATA`: only About You has canned states. */
  const MockTable: Assoc<string, Assoc<string, Assoc<string, MockEntry>>> := [("about-you", AboutYouMock)]

  /** `getPhases`: the game's list, or just the lobby for an unknown game. */
  function GetPhases(game: string): (r: seq<string>)
    ensures HasKey(GamePhases, game) ==> Some(r) == Get(GamePhases, game)
    ensures !HasKey(GamePhases, game) ==> r == ["lobby"]
  {
    GetSpec(GamePhases, game);
    match Get(GamePhases, game)
    case Some(ps) => if |ps| > 0 then ps else ["lobby"]
    case None => ["lobby"]
  }

  /** Every game, known or not, starts in the lobby. */
  lemma PhasesStartInLobby(game: string)
    ensures |GetPhases(game)| > 0 && GetPhases(game)[0] == "lobby"
  {
    GetSpec(GamePhases, game);
    if HasKey(GamePhases, game) {
      var i :| 0 <= i < |GamePhases| && GamePhases[i] == (game, Get(GamePhases, game).value);
    }
  }

  /** `getMockData`: the entry for the role, else the guesser's, else just
      `{ phase }`. */
  function GetMockData(game: string, phase: string, role: string): (r: MockEntry)
    ensures Get(MockTable, game).None? ==> r == MockEntry(phase, None, None)
    ensures Get(MockTable, game).Some? && Get(Get(MockTable, game).value, phase).None? ==> r == MockEntry(phase, None, None)
  {
    match Get(MockTable, game)
    case None => MockEntry(phase, None, None)
    case Some(gameData) =>
      match Get(gameData, phase)
      case None => MockEntry(phase, None, None)
      case Some(phaseData) =>
        match Get(phaseData, role)
        case Some(e) => e
        case None =>
          match Get(phaseData, "guesser")
          case Some(e) => e
          case None => MockEntry(phase, None, None)
  }

  /** Every stored entry is filed under the phase it reports. */
  lemma {:induction false} StoredPhasesMatch(phase: string, role: string)
    requires Get(AboutYouMock, phase).Some? && Get(Get(AboutYouMock, phase).value, role).Some?
    ensures Get(Get(AboutYouMock, phase).value, role).value.phase == phase
  {
    GetSpec(AboutYouMock, phase);
    var i :| 0 <= i < |AboutYouMock| && AboutYouMock[i] == (phase, Get(AboutYouMock, phase).value);
    var pair := AboutYouMock[i].1;
    assert pair == RolePair(phase, if NamesMainCharacter(phase) then Some("player-1") else None);
    GetSpec(pair, role);
  }

  /** Whatever is asked for, the state handed back is in the phase asked
      for; a known About You phase gives the main-character view exactly
      for the `mc` role and the guesser view for every other role. */
  lemma MockDataReportsPhase(game: string, phase: string, role: string)
    ensures GetMockData(game, phase, role).phase == phase
    ensures game == "about-you" && HasKey(AboutYouMock, phase) ==>
      GetMockData(game, phase, role).isMainCharacter == Some(role == "mc")
    ensures game == "about-you" && HasKey(AboutYouMock, phase) ==>
      GetMockData(game, phase, role).mainCharacterId == if NamesMainCharacter(phase) then Some("player-1") else None
    ensures !(game == "about-you" && HasKey(AboutYouMock, phase)) ==> GetMockData(game, phase, role) == MockEntry(phase, None, None)
  {
    GetSpec(MockTable, game);
    if game == "about-you" {
      assert Get(MockTable, game) == Some(AboutYouMock);
      GetSpec(AboutYouMock, phase);
      if HasKey(AboutYouMock, phase) {
        var i :| 0 <= i < |AboutYouMock| && AboutYouMock[i] == (phase, Get(AboutYouMock, phase).value);
        var mainId := if NamesMainCharacter(phase) then Some("player-1") else None;
        assert Get(AboutYouMock, phase).value == RolePair(phase, mainId);
        if role != "mc" && role != "guesser" {
          assert Get(RolePair(phase, mainId), role).None? by {
            GetSpec(RolePair(phase, mainId), role);
          }
        }
      } else {
        assert Get(AboutYouMock, phase).None?;
      }
    } else {
      assert Get(MockTable, game).None? by {
        assert !HasKey(MockTable, game);
      }
    }
  }

  /** The canned phases of About You are exactly its declared phases, in order. */
  lemma MockPhasesAreDeclared()
    ensures Keys(AboutYouMock) == GetPhases("about-you")
  {
    assert Get(GamePhases, "about-you") == Some(GamePhases[0].1);
  }
}
