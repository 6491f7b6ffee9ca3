/** The Abducktion play screen (app/abducktion/play/page.tsx): which arrow
    buttons a player may press, where a press would take them, when a
    press is sent to the server, and how room updates pick out the
    player's own record. */
module Abducktion {
  import opened Wrappers

  datatype Position = Position(x: int, y: int)

  datatype Player = Player(id: string, name: string, position: Position, hasWon: bool, moveCount: int)

  datatype GameState = Lobby | Playing | Results

  /** A room as the server sends it; the board is a grid of rows. */
  datatype Room = Room(code: string, players: seq<Player>, gameState: GameState, currentLevel: int,
                       board: seq<seq<int>>, targetPosition: Position)

  datatype Direction = Up | Down | Left | Right

  /** The direction as it is sent to the server. */
  function DirectionName(d: Direction): string {
    match d
    case Up => "up"
    case Down => "down"
    case Left => "left"
    case Right => "right"
  }

  function Opposite(d: Direction): Direction {
    match d
    case Up => Down
    case Down => Up
    case Left => Right
    case Right => Left
  }

  /** Where one step in direction d leads: rows grow downwards. */
  function Step(p: Position, d: Direction): (q: Position)
    ensures d in {Up, Down} ==> q.x == p.x && (q.y == p.y - 1 <==> d == Up) && (q.y == p.y + 1 <==> d == Down)
    ensures d in {Left, Right} ==> q.y == p.y && (q.x == p.x - 1 <==> d == Left) && (q.x == p.x + 1 <==> d == Right)
  {
    match d
    case Up => p.(y := p.y - 1)
    case Down => p.(y := p.y + 1)
    case Left => p.(x := p.x - 1)
    case Right => p.(x := p.x + 1)
  }

  /** A step back undoes a step. */
  lemma StepBack(p: Position, d: Direction)
    ensures Step(Step(p, d), Opposite(d)) == p
    ensures Step(p, d) != p
  {
  }

  /** Inside the board: the row count is the height, the first row's
      length the width. */
  predicate InBounds(board: seq<seq<int>>, q: Position) {
    0 <= q.y < |board| && 0 <= q.x < |board[0]|
  }

  /** `canMove`: false without a player or a room, otherwise whether the
      step stays on the board. What the cells hold is not consulted. */
  function CanMove(me: Option<Player>, room: Option<Room>, d: Direction): (r: bool)
    ensures me.None? || room.None? ==> !r
    ensures me.Some? && room.Some? ==> (r <==> InBounds(room.value.board, Step(me.value.position, d)))
  {
    if me.None? || room.None? then false
    else
      var q := Step(me.value.position, d);
      !(q.y < 0 || q.y >= |room.value.board| || q.x < 0 || q.x >= |room.value.board[0]|)
  }

  /** Boards of the same shape allow the same moves: blocks and the
      target do not matter. */
  lemma OnlyShapeMatters(me: Player, a: Room, b: Room, d: Direction)
    requires |a.board| == |b.board| && (|a.board| > 0 ==> |a.board[0]| == |b.board[0]|)
    ensures CanMove(Some(me), Some(a), d) == CanMove(Some(me), Some(b), d)
  {
  }

  /** From any square of the board, the square a move leads to allows the
      move back; on an empty board no move is possible. */
  lemma MoveBackAllowed(me: Player, room: Room, d: Direction)
    requires InBounds(room.board, me.position) && CanMove(Some(me), Some(room), d)
    ensures CanMove(Some(me.(position := Step(me.position, d))), Some(room), Opposite(d))
  {
    StepBack(me.position, d);
  }

  lemma EmptyBoardBlocks(me: Player, room: Room, d: Direction)
    requires room.board == []
    ensures !CanMove(Some(me), Some(room), d)
  {
  }

  /** The `abducktion-move` message. */
  datatype MoveMessage = MoveMessage(roomCode: string, direction: string)

  /** `handleMove`: a move is sent only with a socket, a room and a player
      who has not won; the bounds are left to the buttons. */
  function HandleMove(connected: bool, room: Option<Room>, me: Option<Player>, d: Direction): (m: Option<MoveMessage>)
    ensures m.Some? <==> connected && room.Some? && me.Some? && !me.value.hasWon
    ensures m.Some? ==> m.value.roomCode == room.value.code && m.value.direction == DirectionName(d)
  {
    if connected && room.Some? && me.Some? && !me.value.hasWon then Some(MoveMessage(room.value.code, DirectionName(d)))
    else None
  }

  /** An arrow button is live unless the player has won or the move
      would leave the board. */
  function ButtonEnabled(me: Player, room: Room, d: Direction): (r: bool)
    ensures r <==> !me.hasWon && InBounds(room.board, Step(me.position, d))
  {
    !(me.hasWon || !CanMove(Some(me), Some(room), d))
  }

  /** Pressing a live button while connected always sends the move, and
      a winner's buttons are all dead. */
  lemma EnabledButtonSends(me: Player, room: Room, d: Direction)
    ensures ButtonEnabled(me, room, d) ==> HandleMove(true, Some(room), Some(me), d) == Some(MoveMessage(room.code, DirectionName(d)))
    ensures me.hasWon ==> !ButtonEnabled(me, room, d)
  {
  }

  /** Player i is the first with the id. */
  predicate FirstWithIdAt(players: seq<Player>, id: string, i: int) {
    0 <= i < |players| && players[i].id == id && forall j :: 0 <= j < i ==> players[j].id != id
  }

  /** The first player with the id (`players.find`). */
  function FindPlayer(players: seq<Player>, id: string): (r: Option<Player>)
    ensures r.Some? ==> r.value.id == id && r.value in players
    ensures r.Some? ==> exists i :: FirstWithIdAt(players, id, i) && players[i] == r.value
    ensures r.None? <==> forall i :: 0 <= i < |players| ==> players[i].id != id
  {
    if |players| == 0 then None
    else if players[0].id == id then
      assert FirstWithIdAt(players, id, 0);
      Some(players[0])
    else
      var r := FindPlayer(players[1..], id);
      if r.Some? then
        var i :| FirstWithIdAt(players[1..], id, i) && players[1..][i] == r.value;
        assert FirstWithIdAt(players, id, i + 1) by {
          forall j | 0 <= j < i + 1 ensures players[j].id != id {
            if j > 0 { assert players[j] == players[1..][j - 1]; }
          }
        }
        r
      else r
  }

  /** The handlers for `abducktion-room-updated` and
      `abducktion-game-state-changed`: the room is replaced, and the
      player's record is refreshed when the room lists them and kept
      otherwise. */
  function OnRoomUpdate(me: Option<Player>, data: Room, playerId: string): (r: (Room, Option<Player>))
    ensures r.0 == data
    ensures FindPlayer(data.players, playerId).None? ==> r.1 == me
    ensures FindPlayer(data.players, playerId).Some? ==> r.1.Some? && r.1.value.id == playerId && r.1.value in data.players
  {
    match FindPlayer(data.players, playerId)
    case Some(p) => (data, Some(p))
    case None => (data, me)
  }
}
