/** The client-side rules of the Avalon scene
    (lib/clown-club/phaser/scenes/AvalonScene.ts): the quest team-size
    table, the leader's team toggle, the assassination click, when a team
    may be proposed, what a phase change resets, name truncation and the
    timer colour. Drawing is left out. */
module Avalon {
  import opened Wrappers
  import opened Text
  import opened Seqs

  /** `sizes[playerCount]`, quests 1..5. */
  function TeamSizes(players: int): Option<seq<nat>> {
    if players == 5 then Some([2, 3, 2, 3, 3])
    else if players == 6 then Some([2, 3, 4, 3, 4])
    else if players == 7 then Some([2, 3, 3, 4, 4])
    else if 8 <= players <= 10 then Some([3, 4, 4, 5, 5])
    else None
  }

  /** `sizes[playerCount]?.[currentQuest - 1] || 2`. */
  function RequiredTeamSize(players: int, quest: int): (n: nat)
    ensures TeamSizes(players).None? || !(1 <= quest <= 5) ==> n == 2
    ensures TeamSizes(players).Some? && 1 <= quest <= 5 ==> n == TeamSizes(players).value[quest - 1]
  {
    match TeamSizes(players)
    case None => 2
    case Some(row) =>
      if 0 <= quest - 1 < |row| && row[quest - 1] != 0 then row[quest - 1] else 2
  }

  /** Every table size is between 2 and 5, and fewer than the players at the table. */
  lemma TeamSizeBounds(players: int, quest: int)
    ensures 2 <= RequiredTeamSize(players, quest) <= 5
    ensures players >= 5 ==> RequiredTeamSize(players, quest) < players
  {
  }

  /** The scene's own state. */
  datatype View = View(
    phase: string,
    playerId: string,
    isHost: bool,
    isLeader: bool,
    seating: seq<string>,
    currentQuest: int,
    questResults: seq<bool>,
    proposedTeam: seq<string>,
    hasVoted: bool,
    hasSubmittedCard: bool)

  /** What a click or a button sends to the server. */
  datatype Outgoing = UpdateTeam(playerIds: seq<string>) | Assassinate(targetId: string) | ProposeTeam(team: seq<string>)

  /** `handlePlayerClick`: the leader in team-building toggles the player and
      sends the new team; in assassination the click names the target;
      otherwise nothing happens. */
  function HandlePlayerClick(v: View, target: string): (r: (View, Option<Outgoing>))
    ensures v.phase == "team-building" && v.isLeader ==>
      r.0 == v.(proposedTeam := Toggle(v.proposedTeam, target)) && r.1 == Some(UpdateTeam(r.0.proposedTeam))
    ensures !(v.phase == "team-building" && v.isLeader) && v.phase == "assassination" ==>
      r.0 == v && r.1 == Some(Assassinate(target))
    ensures !(v.phase == "team-building" && v.isLeader) && v.phase != "assassination" ==> r == (v, None)
  {
    if v.phase == "team-building" && v.isLeader then
      var team := Toggle(v.proposedTeam, target);
      (v.(proposedTeam := team), Some(UpdateTeam(team)))
    else if v.phase == "assassination" then (v, Some(Assassinate(target)))
    else (v, None)
  }

  /** Two clicks on a player put the team back, and the team never holds a player twice. */
  lemma ClickTwiceRestores(v: View, target: string)
    requires v.phase == "team-building" && v.isLeader && Distinct(v.proposedTeam)
    ensures Distinct(HandlePlayerClick(v, target).0.proposedTeam)
    ensures target !in v.proposedTeam ==> HandlePlayerClick(HandlePlayerClick(v, target).0, target).0 == v
  {
    ToggleFlips(v.proposedTeam, target);
    if target !in v.proposedTeam {
      ToggleTwice(v.proposedTeam, target);
    }
  }

  /** `canPropose`: the team is exactly the required size. */
  predicate CanPropose(v: View) {
    |v.proposedTeam| == RequiredTeamSize(|v.seating|, v.currentQuest)
  }

  /** The PROPOSE TEAM button: sends only when the team has the required size. */
  function Propose(v: View): (r: Option<Outgoing>)
    ensures r.Some? <==> |v.proposedTeam| == RequiredTeamSize(|v.seating|, v.currentQuest)
    ensures r.Some? ==> r.value == ProposeTeam(v.proposedTeam)
  {
    if CanPropose(v) then Some(ProposeTeam(v.proposedTeam)) else None
  }

  /** The fields of `av:phase-changed` that `handlePhaseChange` reads. */
  datatype PhaseData = PhaseData(
    phase: string,
    hostId: Option<string>,
    seating: Option<seq<string>>,
    questResults: Option<seq<bool>>,
    currentQuest: Option<int>,
    proposedTeam: Option<seq<string>>,
    leaderId: Option<string>)

  predicate TruthyText(s: Option<string>) { s.Some? && s.value != "" }

  /** `handlePhaseChange`: every field present (and truthy) is taken over,
      the others are kept, and the per-phase flags are reset; the phase's own
      screen then runs, and of those only `showTeamBuilding` changes the
      scene's state, by clearing the proposed team. */
  function HandlePhaseChange(v: View, d: PhaseData): (r: View)
    ensures r.phase == d.phase && !r.hasVoted && !r.hasSubmittedCard
    ensures r.isHost == if TruthyText(d.hostId) then d.hostId.value == v.playerId else v.isHost
    ensures r.isLeader == if TruthyText(d.leaderId) then d.leaderId.value == v.playerId else v.isLeader
    ensures r.seating == d.seating.GetOr(v.seating) && r.questResults == d.questResults.GetOr(v.questResults)
    ensures r.currentQuest == if d.currentQuest.Some? && d.currentQuest.value != 0 then d.currentQuest.value else v.currentQuest
    ensures d.phase == "team-building" ==> r.proposedTeam == []
    ensures d.phase != "team-building" ==> r.proposedTeam == d.proposedTeam.GetOr(v.proposedTeam)
    ensures r.playerId == v.playerId
  {
    View(
      d.phase,
      v.playerId,
      if TruthyText(d.hostId) then d.hostId.value == v.playerId else v.isHost,
      if TruthyText(d.leaderId) then d.leaderId.value == v.playerId else v.isLeader,
      d.seating.GetOr(v.seating),
      if d.currentQuest.Some? && d.currentQuest.value != 0 then d.currentQuest.value else v.currentQuest,
      d.questResults.GetOr(v.questResults),
      if d.phase == "team-building" then [] else d.proposedTeam.GetOr(v.proposedTeam),
      false,
      false)
  }

  /** Receiving the same phase message twice leaves the scene as receiving it once. */
  lemma PhaseChangeTwice(v: View, d: PhaseData)
    ensures HandlePhaseChange(HandlePhaseChange(v, d), d) == HandlePhaseChange(v, d)
  {
  }

  /** A new team-building round starts with an empty team, so the leader
      cannot propose before picking players. */
  lemma TeamBuildingStartsEmpty(v: View, d: PhaseData)
    requires d.phase == "team-building"
    ensures Propose(HandlePhaseChange(v, d)) == None
  {
    TeamSizeBounds(|HandlePhaseChange(v, d).seating|, HandlePhaseChange(v, d).currentQuest);
  }

  const Ellipsis: char := '…'

  /** A seat's name: up to eight characters, longer names cut to seven plus an ellipsis. */
  function DisplayName(name: string): (r: string)
    ensures |r| <= 8
    ensures |name| <= 8 ==> r == name
    ensures |name| > 8 ==> |r| == 8 && r[..7] == name[..7] && r[7] == Ellipsis
  {
    if |name| > 8 then name[..7] + [Ellipsis] else name
  }

  const Red := "#ef4444"
  const Gold := "#fbbf24"

  /** `updateTimer`: the text `Ns` while time remains, red for the last ten seconds. */
  function Timer(seconds: int): (r: (string, string))
    ensures r.1 == Red <==> 0 < seconds <= 10
    ensures r.1 == Gold <==> !(0 < seconds <= 10)
    ensures r.0 == "" <==> seconds <= 0
  {
    var text := if seconds > 0 then IntToString(seconds) + "s" else "";
    (text, if 0 < seconds <= 10 then Red else Gold)
  }
}
