/** The socket handlers of the caption-contest server (server.js): the
    in-memory room table, the socket.io channels each socket has joined,
    and one transition per incoming event, returning the new state and the
    events sent out. */
module CaptionServer {
  import opened Wrappers
  import opened OrderedMap
  import opened Text
  import opened CaptionRoom

  type Rooms = Assoc<string, Room>

  /** The room table and the (channel, socket) pairs of `socket.join`. */
  datatype Server = Server(rooms: Rooms, channels: set<(string, SocketId)>)

  datatype TallyLine = TallyLine(playerName: Option<string>, caption: Option<string>, votes: nat)

  datatype Event =
    | RoomCreated(code: string, created: Room)
    | ErrorMsg(message: string)
    | RoomUpdated(updated: Option<Room>)
    | JoinedRoom(roomCode: string, joined: Option<Room>)
    | RoomClosed(reason: string)
    | RoundStarted(image: string, round: nat)
    | SubmissionReceived(playerName: string, totalSubmissions: nat, totalPlayers: nat)
    | VotingStarted(captions: seq<(string, SocketId)>)
    | VoteRecorded(votesReceived: nat, voters: nat)
    | ResultsShown(winner: Option<Player>, winningCaption: Option<string>, allScores: seq<(string, nat)>, tally: seq<TallyLine>)

  datatype Target = ToSocket(id: SocketId) | ToChannel(name: string)

  datatype Emit = Emit(to: Target, event: Event)

  datatype Step = Step(server: Server, emits: seq<Emit>)

  const Letters: string := "ABCDEFGHIJKLMNOPQRSTUVWXYZ"
  const CodeLength: nat := 4
  const RoomNotFound: string := "Room not found"
  const NameTaken: string := "Name already taken"
  const SelfVote: string := "Can't vote for yourself!"
  const HostLeft: string := "Host left the game"

  /** Nothing happens: the handler returned early without emitting. */
  function Ignore(s: Server): Step { Step(s, []) }

  // ---------------------------------------------------------------------
  // Room codes
  // ---------------------------------------------------------------------

  predicate IsRoomCode(c: string) {
    |c| == CodeLength && forall i :: 0 <= i < |c| ==> 'A' <= c[i] <= 'Z'
  }

  /** Four `Math.floor(Math.random() * 26)` draws. */
  predicate ValidDraw(d: seq<nat>) {
    |d| == CodeLength && forall i :: 0 <= i < |d| ==> d[i] < |Letters|
  }

  function CodeOfDraw(d: seq<nat>): (c: string)
    requires ValidDraw(d)
    ensures IsRoomCode(c)
  {
    LettersUpper();
    seq(CodeLength, i requires 0 <= i < CodeLength => Letters[d[i]])
  }

  lemma LettersUpper()
    ensures |Letters| == 26 && forall k :: 0 <= k < |Letters| ==> 'A' <= Letters[k] <= 'Z'
  {
  }

  predicate Fresh(rooms: Rooms, d: seq<nat>) {
    ValidDraw(d) && !HasKey(rooms, CodeOfDraw(d))
  }

  /** `generateRoomCode`: the retry loop over a supply of random draws
      yields the code of the first draw not already in use. */
  function GenerateRoomCode(rooms: Rooms, draws: seq<seq<nat>>): (c: string)
    requires forall i :: 0 <= i < |draws| ==> ValidDraw(draws[i])
    requires exists i :: 0 <= i < |draws| && Fresh(rooms, draws[i])
    ensures IsRoomCode(c) && !HasKey(rooms, c)
    ensures exists i :: 0 <= i < |draws| && c == CodeOfDraw(draws[i]) && forall j :: 0 <= j < i ==> !Fresh(rooms, draws[j])
  {
    if Fresh(rooms, draws[0]) then CodeOfDraw(draws[0])
    else
      var c := GenerateRoomCode(rooms, draws[1..]);
      var i :| 0 <= i < |draws| - 1 && c == CodeOfDraw(draws[1..][i]) && forall j :: 0 <= j < i ==> !Fresh(rooms, draws[1..][j]);
      assert c == CodeOfDraw(draws[i + 1]);
      assert forall j :: 0 <= j < i + 1 ==> !Fresh(rooms, draws[j]) by {
        forall j | 0 <= j < i + 1 ensures !Fresh(rooms, draws[j]) {
          if j > 0 { assert draws[j] == draws[1..][j - 1]; }
        }
      }
      c
  }

  /** The record `createRoom` stores. */
  function NewRoom(code: string, host: SocketId, now: int): Room {
    Room(code, host, [], Lobby, 0, [], [], [], None, now)
  }

  /** create-room: a fresh lobby room hosted by the caller, who joins its channel. */
  function CreateRoom(s: Server, sid: SocketId, draws: seq<seq<nat>>, now: int): (r: Step)
    requires forall i :: 0 <= i < |draws| ==> ValidDraw(draws[i])
    requires exists i :: 0 <= i < |draws| && Fresh(s.rooms, draws[i])
    ensures |r.server.rooms| == |s.rooms| + 1
    ensures exists c :: (IsRoomCode(c) && !HasKey(s.rooms, c) && Get(r.server.rooms, c) == Some(NewRoom(c, sid, now))
                         && (forall k :: k != c ==> Get(r.server.rooms, k) == Get(s.rooms, k))
                         && r.server.channels == s.channels + {(c, sid)}
                         && r.emits == [Emit(ToSocket(sid), RoomCreated(c, NewRoom(c, sid, now)))])
  {
    var c := GenerateRoomCode(s.rooms, draws);
    var room := NewRoom(c, sid, now);
    SetFrame(s.rooms, c, room);
    SetShape(s.rooms, c, room);
    Step(Server(Set(s.rooms, c, room), s.channels + {(c, sid)}), [Emit(ToSocket(sid), RoomCreated(c, room))])
  }

  // ---------------------------------------------------------------------
  // Adding and removing players
  // ---------------------------------------------------------------------

  /** `addPlayerToRoom`: None for an unknown code; otherwise the room gains
      the player with score 0, host flag iff it is the room's host socket. */
  function AddPlayerToRoom(rooms: Rooms, code: string, sid: SocketId, name: string): (r: Option<(Rooms, Room)>)
    ensures r.None? <==> !HasKey(rooms, code)
    ensures r.Some? ==> Get(rooms, code).Some?
    ensures r.Some? ==>
      var before := Get(rooms, code).value;
      Get(r.value.0, code) == Some(r.value.1)
      && r.value.1.players == before.players + [Player(sid, name, 0, sid == before.host)]
      && Get(r.value.1.scores, sid) == Some(0)
      && r.value.1.(players := before.players, scores := before.scores) == before
      && (forall k :: k != code ==> Get(r.value.0, k) == Get(rooms, k))
  {
    GetSpec(rooms, code);
    match Get(rooms, code)
    case None => None
    case Some(room) =>
      var added := room.(players := room.players + [Player(sid, name, 0, sid == room.host)],
                         scores := Set(room.scores, sid, 0));
      SetFrame(room.scores, sid, 0);
      SetFrame(rooms, code, added);
      Some((Set(rooms, code, added), added))
  }

  predicate HasPlayer(room: Room, sid: SocketId) {
    exists i :: 0 <= i < |room.players| && room.players[i].id == sid
  }

  /** Index of the first room whose players include the socket, or |rooms|. */
  function RoomIndexOf(rooms: Rooms, sid: SocketId): (i: nat)
    ensures i <= |rooms|
    ensures i < |rooms| ==> HasPlayer(rooms[i].1, sid)
    ensures forall j :: 0 <= j < i ==> !HasPlayer(rooms[j].1, sid)
  {
    if |rooms| == 0 then 0
    else if HasPlayer(rooms[0].1, sid) then 0
    else
      var i := RoomIndexOf(rooms[1..], sid);
      assert forall j :: 1 <= j <= i ==> rooms[j] == rooms[1..][j - 1];
      i + 1
  }

  /** `players.findIndex(p => p.id === sid)`, or |players|. */
  function PlayerIndexOf(players: seq<Player>, sid: SocketId): (i: nat)
    ensures i <= |players|
    ensures i < |players| ==> players[i].id == sid
    ensures forall j :: 0 <= j < i ==> players[j].id != sid
  {
    if |players| == 0 then 0
    else if players[0].id == sid then 0
    else
      var i := PlayerIndexOf(players[1..], sid);
      assert forall j :: 1 <= j <= i ==> players[j] == players[1..][j - 1];
      i + 1
  }

  datatype Removal = Removal(deleted: bool, code: string, room: Option<Room>)

  /** The room after the socket's first player entry is spliced out and its score deleted. */
  function WithoutPlayer(room: Room, sid: SocketId): (r: Room)
    requires HasPlayer(room, sid)
    ensures |r.players| == |room.players| - 1
    ensures !HasKey(r.scores, sid)
    ensures r.(players := room.players, scores := room.scores) == room
  {
    var j := PlayerIndexOf(room.players, sid);
    room.(players := room.players[..j] + room.players[j + 1..], scores := Delete(room.scores, sid))
  }

  /** Room i lost the socket's player; it is deleted iff that left it
      empty or the socket was its host, and otherwise updated in place. */
  predicate RemovedFrom(rooms: Rooms, sid: SocketId, i: nat, after: Rooms, removal: Removal)
    requires i < |rooms| && HasPlayer(rooms[i].1, sid)
  {
    var left := WithoutPlayer(rooms[i].1, sid);
    (removal.deleted <==> |left.players| == 0 || sid == rooms[i].1.host)
    && (removal.deleted ==> after == Delete(rooms, rooms[i].0) && removal.room.None?)
    && (!removal.deleted ==> after == rooms[i := (rooms[i].0, left)] && removal.room == Some(left))
  }

  /** `removePlayerFromRoom`: only the first room holding the socket is
      touched; that room is deleted iff it is left empty or the socket was
      its host. */
  function RemovePlayerFromRoom(rooms: Rooms, sid: SocketId): (r: (Rooms, Option<Removal>))
    ensures r.1.None? <==> forall i :: 0 <= i < |rooms| ==> !HasPlayer(rooms[i].1, sid)
    ensures r.1.None? ==> r.0 == rooms
    ensures r.1.Some? ==>
      exists i :: (0 <= i < |rooms| && HasPlayer(rooms[i].1, sid)
                   && (forall j :: 0 <= j < i ==> !HasPlayer(rooms[j].1, sid))
                   && r.1.value.code == rooms[i].0
                   && RemovedFrom(rooms, sid, i, r.0, r.1.value))
  {
    var i := RoomIndexOf(rooms, sid);
    if i == |rooms| then (rooms, None)
    else
      var (code, room) := rooms[i];
      var left := WithoutPlayer(room, sid);
      if |left.players| == 0 || sid == room.host then
        (Delete(rooms, code), Some(Removal(true, code, None)))
      else
        (rooms[i := (code, left)], Some(Removal(false, code, Some(left))))
  }

  // ---------------------------------------------------------------------
  // Host events
  // ---------------------------------------------------------------------

  /** The room stored under `code` is replaced by `room`. */
  function Store(s: Server, code: string, room: Room): (t: Server)
    ensures Get(t.rooms, code) == Some(room)
    ensures forall k :: k != code ==> Get(t.rooms, k) == Get(s.rooms, k)
    ensures t.channels == s.channels
  {
    SetFrame(s.rooms, code, room);
    Server(Set(s.rooms, code, room), s.channels)
  }

  /** rejoin-room: a refreshed host page takes over the room, looked up by
      the upper-cased code; the socket joins the channel of the code as sent. */
  function RejoinRoom(s: Server, sid: SocketId, roomCode: Option<string>): (r: Step)
    ensures (roomCode.None? || Get(s.rooms, Upper(roomCode.value)).None?) ==>
      r == Step(s, [Emit(ToSocket(sid), ErrorMsg(RoomNotFound))])
    ensures roomCode.Some? && Get(s.rooms, Upper(roomCode.value)).Some? ==>
      var room := Get(s.rooms, Upper(roomCode.value)).value;
      Get(r.server.rooms, Upper(roomCode.value)) == Some(room.(host := sid))
      && r.server.channels == s.channels + {(roomCode.value, sid)}
      && r.emits == [Emit(ToSocket(sid), RoomCreated(room.code, room.(host := sid)))]
  {
    if roomCode.None? then Step(s, [Emit(ToSocket(sid), ErrorMsg(RoomNotFound))])
    else
      var key := Upper(roomCode.value);
      match Get(s.rooms, key)
      case None => Step(s, [Emit(ToSocket(sid), ErrorMsg(RoomNotFound))])
      case Some(room) =>
        var moved := room.(host := sid);
        var t := Store(s, key, moved);
        Step(t.(channels := t.channels + {(roomCode.value, sid)}), [Emit(ToSocket(sid), RoomCreated(room.code, moved))])
  }

  /** The `https://picsum.photos/seed/<code><round>/800/600` placeholder. */
  function ImageUrl(code: string, round: nat): string {
    "https://picsum.photos/seed/" + code + NatToString(round) + "/800/600"
  }

  /** Shared body of start-game and next-round: a new submitting round. */
  function BeginRound(room: Room, code: string, clearVotes: bool): (r: Room)
    ensures r.state == Submitting && r.round == room.round + 1 && r.submissions == []
    ensures r.image == Some(ImageUrl(code, room.round + 1))
    ensures r.votes == if clearVotes then [] else room.votes
    ensures r.(state := room.state, round := room.round, submissions := room.submissions, votes := room.votes, image := room.image) == room
  {
    room.(state := Submitting, round := room.round + 1, submissions := [],
          votes := if clearVotes then [] else room.votes,
          image := Some(ImageUrl(code, room.round + 1)))
  }

  function HostRound(s: Server, sid: SocketId, code: string, clearVotes: bool): (r: Step)
    ensures (Get(s.rooms, code).None? || sid != Get(s.rooms, code).value.host) ==> r == Ignore(s)
    ensures Get(s.rooms, code).Some? && sid == Get(s.rooms, code).value.host ==>
      var room := Get(s.rooms, code).value;
      Get(r.server.rooms, code) == Some(BeginRound(room, code, clearVotes))
      && (forall k :: k != code ==> Get(r.server.rooms, k) == Get(s.rooms, k))
      && r.server.channels == s.channels
      && r.emits == [Emit(ToChannel(code), RoundStarted(ImageUrl(code, room.round + 1), room.round + 1))]
  {
    match Get(s.rooms, code)
    case None => Ignore(s)
    case Some(room) =>
      if sid != room.host then Ignore(s)
      else
        var next := BeginRound(room, code, clearVotes);
        Step(Store(s, code, next), [Emit(ToChannel(code), RoundStarted(ImageUrl(code, next.round), next.round))])
  }

  /** start-game: host only; submissions are cleared but earlier votes are kept. */
  function StartGame(s: Server, sid: SocketId, code: string): (r: Step)
    ensures (Get(s.rooms, code).None? || sid != Get(s.rooms, code).value.host) ==> r == Ignore(s)
    ensures Get(s.rooms, code).Some? && sid == Get(s.rooms, code).value.host ==>
      var room := Get(s.rooms, code).value;
      Get(r.server.rooms, code).Some?
      && var next := Get(r.server.rooms, code).value;
         next.state == Submitting && next.round == room.round + 1 && next.submissions == [] && next.votes == room.votes
         && next.players == room.players && next.scores == room.scores
  {
    HostRound(s, sid, code, false)
  }

  /** next-round: host only; like start-game but the votes are cleared too. */
  function NextRound(s: Server, sid: SocketId, code: string): (r: Step)
    ensures (Get(s.rooms, code).None? || sid != Get(s.rooms, code).value.host) ==> r == Ignore(s)
    ensures Get(s.rooms, code).Some? && sid == Get(s.rooms, code).value.host ==>
      var room := Get(s.rooms, code).value;
      Get(r.server.rooms, code).Some?
      && var next := Get(r.server.rooms, code).value;
         next.state == Submitting && next.round == room.round + 1 && next.submissions == [] && next.votes == []
         && next.players == room.players && next.scores == room.scores
  {
    HostRound(s, sid, code, true)
  }

  // ---------------------------------------------------------------------
  // Joining and leaving
  // ---------------------------------------------------------------------

  predicate NameInUse(room: Room, name: string) {
    exists i :: 0 <= i < |room.players| && room.players[i].name == name
  }

  /** join-room as written: the room is looked up by the upper-cased code,
      but the player is added, the channel joined and the events addressed
      with the code as sent. */
  function JoinRoomAsWritten(s: Server, sid: SocketId, roomCode: Option<string>, name: string): (r: Step)
    ensures (roomCode.None? || Get(s.rooms, Upper(roomCode.value)).None?) ==>
      r == Step(s, [Emit(ToSocket(sid), ErrorMsg(RoomNotFound))])
  {
    if roomCode.None? then Step(s, [Emit(ToSocket(sid), ErrorMsg(RoomNotFound))])
    else
      match Get(s.rooms, Upper(roomCode.value))
      case None => Step(s, [Emit(ToSocket(sid), ErrorMsg(RoomNotFound))])
      case Some(room) =>
        if NameInUse(room, name) then Step(s, [Emit(ToSocket(sid), ErrorMsg(NameTaken))])
        else
          var raw := roomCode.value;
          var added := AddPlayerToRoom(s.rooms, raw, sid, name);
          var rooms := if added.Some? then added.value.0 else s.rooms;
          var updated := if added.Some? then Some(added.value.1) else None;
          Step(Server(rooms, s.channels + {(raw, sid)}),
               [Emit(ToChannel(raw), RoomUpdated(updated)), Emit(ToSocket(sid), JoinedRoom(raw, updated))])
  }

  /** A lower-case code finds the room yet nobody is added and the joiner
      is told it joined a null room. */
  lemma LowerCaseJoinIsLost(room: Room, sid: SocketId, name: string)
    requires !NameInUse(room, name)
    ensures var s := Server([("ABCD", room)], {});
      var r := JoinRoomAsWritten(s, sid, Some("abcd"), name);
      r.server.rooms == s.rooms && |r.emits| == 2 && r.emits[1] == Emit(ToSocket(sid), JoinedRoom("abcd", None))
  {
    var s := Server([("ABCD", room)], {});
    assert Upper("abcd") == "ABCD";
    assert "abcd" != "ABCD";
    assert Get(s.rooms, "ABCD") == Some(room);
    assert !HasKey(s.rooms, "abcd");
  }

  /** join-room with the upper-cased code used throughout. */
  function JoinRoom(s: Server, sid: SocketId, roomCode: Option<string>, name: string): (r: Step)
    ensures (roomCode.None? || Get(s.rooms, Upper(roomCode.value)).None?) ==>
      r == Step(s, [Emit(ToSocket(sid), ErrorMsg(RoomNotFound))])
    ensures roomCode.Some? && Get(s.rooms, Upper(roomCode.value)).Some? && NameInUse(Get(s.rooms, Upper(roomCode.value)).value, name) ==>
      r == Step(s, [Emit(ToSocket(sid), ErrorMsg(NameTaken))])
    ensures roomCode.Some? && Get(s.rooms, Upper(roomCode.value)).Some? && !NameInUse(Get(s.rooms, Upper(roomCode.value)).value, name) ==>
      var key := Upper(roomCode.value);
      var room := Get(s.rooms, key).value;
      Get(r.server.rooms, key).Some?
      && var joined := Get(r.server.rooms, key).value;
         joined.players == room.players + [Player(sid, name, 0, sid == room.host)]
         && (forall k :: k != key ==> Get(r.server.rooms, k) == Get(s.rooms, k))
         && r.server.channels == s.channels + {(key, sid)}
         && r.emits == [Emit(ToChannel(key), RoomUpdated(Some(joined))), Emit(ToSocket(sid), JoinedRoom(key, Some(joined)))]
  {
    if roomCode.None? then Step(s, [Emit(ToSocket(sid), ErrorMsg(RoomNotFound))])
    else
      var key := Upper(roomCode.value);
      match Get(s.rooms, key)
      case None => Step(s, [Emit(ToSocket(sid), ErrorMsg(RoomNotFound))])
      case Some(room) =>
        if NameInUse(room, name) then Step(s, [Emit(ToSocket(sid), ErrorMsg(NameTaken))])
        else
          GetSpec(s.rooms, key);
          var added := AddPlayerToRoom(s.rooms, key, sid, name).value;
          Step(Server(added.0, s.channels + {(key, sid)}),
               [Emit(ToChannel(key), RoomUpdated(Some(added.1))), Emit(ToSocket(sid), JoinedRoom(key, Some(added.1)))])
  }

  /** With an upper-case code the two versions agree. */
  lemma JoinAgreesOnUpperCase(s: Server, sid: SocketId, code: string, name: string)
    requires Upper(code) == code
    ensures JoinRoomAsWritten(s, sid, Some(code), name) == JoinRoom(s, sid, Some(code), name)
  {
    GetSpec(s.rooms, code);
  }

  /** disconnect: socket.io drops the socket from every channel; the server
      removes its player entry and tells the room it closed or changed. */
  function Disconnect(s: Server, sid: SocketId): (r: Step)
    ensures forall c :: (c, sid) !in r.server.channels
    ensures forall p :: p in r.server.channels <==> p in s.channels && p.1 != sid
    ensures (forall i :: 0 <= i < |s.rooms| ==> !HasPlayer(s.rooms[i].1, sid)) ==> r.emits == [] && r.server.rooms == s.rooms
    ensures |r.emits| <= 1
  {
    var channels := set p | p in s.channels && p.1 != sid;
    var (rooms, res) := RemovePlayerFromRoom(s.rooms, sid);
    var emits :=
      match res
      case None => []
      case Some(Removal(deleted, code, room)) =>
        if deleted then [Emit(ToChannel(code), RoomClosed(HostLeft))]
        else [Emit(ToChannel(code), RoomUpdated(room))];
    Step(Server(rooms, channels), emits)
  }

  // ---------------------------------------------------------------------
  // Captions and votes
  // ---------------------------------------------------------------------

  /** submit-caption: only while submitting and only from a listed player;
      the round moves to voting when the submission count reaches the
      player count. */
  function SubmitCaption(s: Server, sid: SocketId, code: string, caption: string): (r: Step)
    ensures (Get(s.rooms, code).None? || Get(s.rooms, code).value.state != Submitting
             || FindPlayer(Get(s.rooms, code).value.players, sid).None?) ==> r == Ignore(s)
    ensures Get(s.rooms, code).Some? && Get(s.rooms, code).value.state == Submitting
            && FindPlayer(Get(s.rooms, code).value.players, sid).Some? ==>
      var room := Get(s.rooms, code).value;
      var player := FindPlayer(room.players, sid).value;
      Get(r.server.rooms, code).Some?
      && var next := Get(r.server.rooms, code).value;
         next.submissions == room.submissions + [Submission(sid, player.name, Trim(caption))]
         && (next.state == Voting <==> |room.submissions| + 1 == |room.players|)
         && (next.state != Voting ==> next.state == Submitting && next.votes == room.votes)
         && (next.state == Voting ==> next.votes == [])
         && next.players == room.players
         && (forall k :: k != code ==> Get(r.server.rooms, k) == Get(s.rooms, k))
         && |r.emits| >= 1 && r.emits[0] == Emit(ToChannel(code), SubmissionReceived(player.name, |room.submissions| + 1, |room.players|))
         && (|r.emits| == 2 <==> next.state == Voting)
  {
    match Get(s.rooms, code)
    case None => Ignore(s)
    case Some(room) =>
      if room.state != Submitting then Ignore(s)
      else
        match FindPlayer(room.players, sid)
        case None => Ignore(s)
        case Some(player) =>
          var subs := room.submissions + [Submission(sid, player.name, Trim(caption))];
          var received := Emit(ToChannel(code), SubmissionReceived(player.name, |subs|, |room.players|));
          if |subs| == |room.players| then
            var next := room.(submissions := subs, state := Voting, votes := []);
            var shown := seq(|subs|, i requires 0 <= i < |subs| => (subs[i].caption, subs[i].playerId));
            Step(Store(s, code, next), [received, Emit(ToChannel(code), VotingStarted(shown))])
          else
            Step(Store(s, code, room.(submissions := subs)), [received])
  }

  /** The results a finished vote produces: scores updated in the order
      the candidates were first voted for, and the results event. */
  function Tally(room: Room): (r: (Room, Event))
    ensures r.0.state == Results
    ensures r.0.scores == ScoreMap(room.scores, CountVotes(room.votes))
    ensures SumValues(r.0.scores) == SumValues(room.scores) + |room.votes|
    ensures r.0.players == ScorePlayers(room.players, room.scores, CountVotes(room.votes))
    ensures |r.0.players| == |room.players|
    ensures r.0.(state := room.state, scores := room.scores, players := room.players) == room
    ensures r.1 == ResultsEvent(CountVotes(room.votes), room.players, room.scores, room.submissions)
  {
    var counts := CountVotes(room.votes);
    CountVotesTotal(room.votes);
    ScoreMapTotal(room.scores, counts);
    var scores := ScoreMap(room.scores, counts);
    var players := ScorePlayers(room.players, room.scores, counts);
    (room.(state := Results, scores := scores, players := players), ResultsEvent(counts, room.players, room.scores, room.submissions))
  }

  /** The `results` event: the first strictly best candidate wins and is
      reported with the score just given; every player's score and one
      line per candidate follow. */
  function ResultsEvent(counts: Assoc<SocketId, nat>, players: seq<Player>, scores: Assoc<SocketId, nat>, subs: seq<Submission>): (e: Event)
    ensures e.ResultsShown?
    ensures e.winner.None? <==> !WinnerPresent(counts, players)
    ensures e.winner.Some? ==> e.winner.value.id == Winner(counts).1.value
    ensures e.winner.Some? ==> WinnerOf(counts, e.winner.value.id) && Get(ScoreMap(scores, counts), e.winner.value.id).Some?
    ensures e.winner.Some? ==>
      e.winner.value == FindPlayer(players, e.winner.value.id).value.(score := Get(ScoreMap(scores, counts), e.winner.value.id).value)
    ensures DistinctKeys(counts) && e.winner.Some? ==>
      e.winner.value.score == ScoreOf(scores, e.winner.value.id) + Winner(counts).0
    ensures e.winningCaption.None? <==> !WinnerSubmitted(counts, subs)
    ensures e.winningCaption.Some? ==> CaptionBy(subs, Winner(counts).1.value, e.winningCaption.value)
    ensures ScoresListed(ScorePlayers(players, scores, counts), e.allScores)
    ensures TallyListed(counts, ScorePlayers(players, scores, counts), subs, e.tally)
  {
    var scored := ScorePlayers(players, scores, counts);
    var winnerId := Winner(counts).1;
    var winner := if winnerId.Some? then FindPlayer(scored, winnerId.value) else None;
    var winning := if winnerId.Some? then FindSubmission(subs, winnerId.value) else None;
    var caption := if winning.Some? then Some(winning.value.caption) else None;
    TallyWinner(players, scores, counts);
    assert DistinctKeys(counts) && winnerId.Some? ==>
      Get(ScoreMap(scores, counts), winnerId.value) == Some(ScoreOf(scores, winnerId.value) + Winner(counts).0) by {
      if DistinctKeys(counts) && winnerId.Some? { WinnerTotal(scores, counts); }
    }
    ResultsShown(winner, caption, AllScores(scored), TallyLines(counts, scored, subs))
  }

  /** The round has a winner and the winner is still among the players. */
  predicate WinnerPresent(counts: Assoc<SocketId, nat>, players: seq<Player>) {
    Winner(counts).1.Some? && FindPlayer(players, Winner(counts).1.value).Some?
  }

  /** The round has a winner and the winner submitted a caption. */
  predicate WinnerSubmitted(counts: Assoc<SocketId, nat>, subs: seq<Submission>) {
    Winner(counts).1.Some? && FindSubmission(subs, Winner(counts).1.value).Some?
  }

  /** id is the round's winner: the first candidate with the strictly
      largest count. */
  predicate WinnerOf(counts: Assoc<SocketId, nat>, id: SocketId) {
    exists i :: 0 <= i < |counts| && counts[i].0 == id && IsFirstMax(counts, i)
  }

  /** caption is what the player with this id submitted (the first such submission). */
  predicate CaptionBy(subs: seq<Submission>, id: SocketId, caption: string) {
    FindSubmission(subs, id).Some? && FindSubmission(subs, id).value.caption == caption
  }

  /** `allScores`: every player's name and score, in player order. */
  predicate ScoresListed(players: seq<Player>, allScores: seq<(string, nat)>) {
    |allScores| == |players| && forall i :: 0 <= i < |players| ==> allScores[i] == (players[i].name, players[i].score)
  }

  /** `voteCounts`: one line per candidate in count order, with the
      candidate's name and caption when there is one. */
  predicate TallyListed(counts: Assoc<SocketId, nat>, players: seq<Player>, subs: seq<Submission>, lines: seq<TallyLine>) {
    |lines| == |counts|
    && forall i :: 0 <= i < |counts| ==> LineFor(counts[i], players, subs, lines[i])
  }

  /** One line of `voteCounts` describes this candidate. */
  predicate LineFor(count: (SocketId, nat), players: seq<Player>, subs: seq<Submission>, line: TallyLine) {
    && line.votes == count.1
    && (line.playerName.None? <==> FindPlayer(players, count.0).None?)
    && (line.playerName.Some? ==> line.playerName.value == FindPlayer(players, count.0).value.name)
    && (line.caption.None? <==> FindSubmission(subs, count.0).None?)
    && (line.caption.Some? ==> CaptionBy(subs, count.0, line.caption.value))
  }

  function AllScores(players: seq<Player>): (r: seq<(string, nat)>)
    ensures ScoresListed(players, r)
  {
    seq(|players|, i requires 0 <= i < |players| => (players[i].name, players[i].score))
  }

  function TallyLines(counts: Assoc<SocketId, nat>, players: seq<Player>, subs: seq<Submission>): (r: seq<TallyLine>)
    ensures TallyListed(counts, players, subs, r)
  {
    seq(|counts|, i requires 0 <= i < |counts| =>
      var p := FindPlayer(players, counts[i].0);
      var sub := FindSubmission(subs, counts[i].0);
      TallyLine(if p.Some? then Some(p.value.name) else None, if sub.Some? then Some(sub.value.caption) else None, counts[i].1))
  }

  /** Looking the winner up among the scored players finds the same player
      as among the unscored ones, now carrying the new score. */
  lemma TallyWinner(players: seq<Player>, scores: Assoc<SocketId, nat>, counts: Assoc<SocketId, nat>)
    ensures Winner(counts).1.Some? ==> WinnerOf(counts, Winner(counts).1.value)
    ensures Winner(counts).1.Some? ==>
      (FindPlayer(ScorePlayers(players, scores, counts), Winner(counts).1.value).None?
       <==> FindPlayer(players, Winner(counts).1.value).None?)
    ensures WinnerPresent(counts, players) ==> Get(ScoreMap(scores, counts), Winner(counts).1.value).Some?
    ensures WinnerPresent(counts, players) ==>
      FindPlayer(ScorePlayers(players, scores, counts), Winner(counts).1.value)
      == Some(FindPlayer(players, Winner(counts).1.value).value.(score := Get(ScoreMap(scores, counts), Winner(counts).1.value).value))
  {
    if Winner(counts).1.Some? {
      var w := Winner(counts).1.value;
      var i :| 0 <= i < |counts| && counts[i] == (w, Winner(counts).0) && IsFirstMax(counts, i);
      assert counts[i].0 == w;
      assert HasKey(counts, w);
      var r := ScorePlayers(players, scores, counts);
      assert forall j :: 0 <= j < |r| ==> r[j].id == players[j].id by {
        forall j | 0 <= j < |r| ensures r[j].id == players[j].id {
          assert SameButScore(r[j], players[j]);
        }
      }
      if FindPlayer(players, w).Some? {
        ScorePlayersFinds(players, scores, counts, w);
      }
    }
  }

  /** vote-caption: only while voting; a self-vote is refused with an
      error; a repeat vote replaces the earlier one; results follow once
      the number of voters equals the number of players. */
  function VoteCaption(s: Server, sid: SocketId, code: string, votedFor: SocketId): (r: Step)
    ensures (Get(s.rooms, code).None? || Get(s.rooms, code).value.state != Voting) ==> r == Ignore(s)
    ensures Get(s.rooms, code).Some? && Get(s.rooms, code).value.state == Voting && votedFor == sid ==>
      r == Step(s, [Emit(ToSocket(sid), ErrorMsg(SelfVote))])
    ensures Get(s.rooms, code).Some? && Get(s.rooms, code).value.state == Voting && votedFor != sid ==>
      var room := Get(s.rooms, code).value;
      var votes := Set(room.votes, sid, votedFor);
      Get(r.server.rooms, code).Some?
      && var next := Get(r.server.rooms, code).value;
         Get(next.votes, sid) == Some(votedFor)
         && next.votes == votes
         && (next.state == Results <==> |votes| == |room.players|)
         && (next.state == Results ==> next.scores == ScoreMap(room.scores, CountVotes(votes)))
         && (next.state != Results ==> next == room.(votes := votes))
         && (forall k :: k != code ==> Get(r.server.rooms, k) == Get(s.rooms, k))
         && |r.emits| >= 1 && r.emits[0] == Emit(ToChannel(code), VoteRecorded(|votes|, |room.players|))
  {
    match Get(s.rooms, code)
    case None => Ignore(s)
    case Some(room) =>
      if room.state != Voting then Ignore(s)
      else if votedFor == sid then Step(s, [Emit(ToSocket(sid), ErrorMsg(SelfVote))])
      else
        var votes := Set(room.votes, sid, votedFor);
        GetSetSame(room.votes, sid, votedFor);
        var voted := room.(votes := votes);
        var recorded := Emit(ToChannel(code), VoteRecorded(|votes|, |room.players|));
        if |votes| == |room.players| then
          var (done, results) := Tally(voted);
          Step(Store(s, code, done), [recorded, Emit(ToChannel(code), results)])
        else
          Step(Store(s, code, voted), [recorded])
  }

  // ---------------------------------------------------------------------
  // Properties across events
  // ---------------------------------------------------------------------

  /** A second vote from the same socket changes its choice, not the count. */
  lemma RevoteKeepsCount(votes: Assoc<SocketId, SocketId>, sid: SocketId, first: SocketId, second: SocketId)
    ensures |Set(Set(votes, sid, first), sid, second)| == |Set(votes, sid, first)|
    ensures Get(Set(Set(votes, sid, first), sid, second), sid) == Some(second)
  {
    GetSetSame(votes, sid, first);
    GetSpec(Set(votes, sid, first), sid);
    SetShape(Set(votes, sid, first), sid, second);
    GetSetSame(Set(votes, sid, first), sid, second);
  }

  /** Nothing stops one player submitting twice: in a two-player room a
      double submission opens voting with the other player's caption missing. */
  lemma DoubleSubmissionOpensVoting(s: Server, code: string, a: Player, b: Player, c1: string, c2: string)
    requires a.id != b.id
    requires Get(s.rooms, code).Some?
    requires Get(s.rooms, code).value.players == [a, b]
    requires Get(s.rooms, code).value.state == Submitting
    requires Get(s.rooms, code).value.submissions == []
    ensures var s2 := SubmitCaption(SubmitCaption(s, a.id, code, c1).server, a.id, code, c2).server;
      Get(s2.rooms, code).Some? && Get(s2.rooms, code).value.state == Voting
      && forall i :: 0 <= i < |Get(s2.rooms, code).value.submissions| ==> Get(s2.rooms, code).value.submissions[i].playerId == a.id
  {
    assert FindPlayer([a, b], a.id) == Some(a);
  }
}
