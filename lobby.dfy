/** A player connecting to a game's lobby (src/handlers/ConnectToLobby.ts):
    the guards on the stored game, the room created when absent, the capacity
    of six, and the join through the registry. */
module Lobby {
  import opened Common
  import opened RoomManager
  import opened StartGame

  const MaxPlayers: nat := 6

  /** How a call of the handler ends. */
  datatype LobbyOutcome =
    | GameNotFound
    | GameAlreadyFinished
    | GameAlreadyStarted
    | GameFull
    | AddPlayerFailed
    | Joined(paid: bool)

  /** The guards on the stored game, in the handler's order. None: the game is
      pending and the join goes on. */
  function StatusGate(game: Option<GameRecord>): (refusal: Option<LobbyOutcome>)
    ensures refusal.None? <==> game.Some? && game.value.status == Pending
    ensures refusal == Some(GameNotFound) <==> game.None?
    ensures refusal == Some(GameAlreadyFinished) <==> game.Some? && game.value.status == Finished
    ensures refusal == Some(GameAlreadyStarted) <==> game.Some? && game.value.status == Playing
  {
    if game.None? then Some(GameNotFound)
    else match game.value.status
      case Finished => Some(GameAlreadyFinished)
      case Playing => Some(GameAlreadyStarted)
      case Pending => None
  }

  /** The capacity guard: a full room turns away whoever is not on its roster. */
  predicate Full(players: map<Fid, Player>, fid: Fid)
  {
    |players| >= MaxPlayers && fid !in players
  }

  /** The stake flag the join passes on. */
  function Paid(game: GameRecord): (paid: bool)
    ensures paid <==> game.betAmount > 0
  {
    game.betAmount > 0
  }

  /** A join the capacity guard lets through never takes a room past six
      players, and a member is let through however full the room is. */
  lemma {:induction false} AdmittedWithinCapacity(players: map<Fid, Player>, p: Player)
    requires |players| <= MaxPlayers && !Full(players, p.fid)
    ensures |players[p.fid := p]| <= MaxPlayers
    ensures p.fid in players ==> |players[p.fid := p]| == |players|
  {
    if p.fid in players {
      assert players[p.fid := p].Keys == players.Keys;
    } else {
      assert players[p.fid := p].Keys == players.Keys + {p.fid};
    }
  }

  /** The room `g` after the join: the player stored under its fid with the
      connecting socket, and the room bound to the game's contract game id. */
  function JoinedRoom(room: GameRoom, player: Player, socketId: string, contractGameId: Option<int>): (r: GameRoom)
    ensures r.players.Keys == room.players.Keys + {player.fid}
    ensures r.players[player.fid] == player.(socketId := socketId)
    ensures forall k | k in room.players && k != player.fid :: r.players[k] == room.players[k]
    ensures r.board == room.board && r.timer == room.timer && r.timeRemaining == room.timeRemaining
    ensures r.contractGameId == contractGameId
  {
    room.(players := room.players[player.fid := player.(socketId := socketId)], contractGameId := contractGameId)
  }

  /** The four-argument addPlayer the handler calls (it is not the two-argument
      one of the registry): in an existing room, store the player under its fid
      and bind the room to `contractGameId`, then record the participant with
      its stake flag. `recorded` is whether the record call succeeds; as in
      the registry's own addPlayer the roster is written before that call. */
  method AddPlayerWithStake(mgr: GameRoomManager, g: GameId, contractGameId: Option<int>, player: Player,
                            paid: bool, recorded: bool)
    requires mgr.Valid()
    modifies mgr
    ensures mgr.Valid() && mgr.intervals == old(mgr.intervals) && mgr.nextTimer == old(mgr.nextTimer)
    ensures g !in old(mgr.rooms) ==> mgr.rooms == old(mgr.rooms) && mgr.effects == old(mgr.effects)
    ensures g in old(mgr.rooms) ==>
      mgr.rooms == old(mgr.rooms)[g := old(mgr.rooms)[g].(players := old(mgr.rooms)[g].players[player.fid := player],
                                                        contractGameId := contractGameId)]
    ensures g in old(mgr.rooms) && recorded ==> mgr.effects == old(mgr.effects) + [ParticipantJoined(player.fid, g, paid)]
    ensures !recorded ==> mgr.effects == old(mgr.effects)
    ensures old(mgr.SingleTimerPerRoom()) ==> mgr.SingleTimerPerRoom()
  {
    if g in mgr.rooms {
      var room := mgr.rooms[g];
      mgr.rooms := mgr.rooms[g := room.(players := room.players[player.fid := player], contractGameId := contractGameId)];
      if recorded {
        mgr.effects := mgr.effects + [ParticipantJoined(player.fid, g, paid)];
      }
    }
  }

  /** The room registered under `g`, created first when there is none. */
  method RoomFor(mgr: GameRoomManager, g: GameId) returns (room: GameRoom)
    requires mgr.Valid()
    modifies mgr
    ensures mgr.Valid() && mgr.intervals == old(mgr.intervals) && mgr.nextTimer == old(mgr.nextTimer)
    ensures mgr.effects == old(mgr.effects)
    ensures room == (if g in old(mgr.rooms) then old(mgr.rooms)[g] else NewRoom())
    ensures mgr.rooms == old(mgr.rooms)[g := room]
    ensures old(mgr.SingleTimerPerRoom()) ==> mgr.SingleTimerPerRoom()
  {
    var existing := mgr.GetGameRoom(g);
    if existing.None? {
      room := mgr.CreateGameRoom(g);
      assert Unscheduled(old(mgr.intervals), g) == old(mgr.intervals);
    } else {
      room := existing.value;
      assert mgr.rooms[g := room] == mgr.rooms;
    }
  }

  /** handle: the guards, then the room created if absent, the capacity guard,
      and the join. `recorded` is whether the participant record succeeds. */
  method Connect(mgr: GameRoomManager, g: GameId, game: Option<GameRecord>, player: Player, socketId: string,
                 recorded: bool)
    returns (outcome: LobbyOutcome)
    requires mgr.Valid()
    modifies mgr
    ensures mgr.Valid() && mgr.intervals == old(mgr.intervals) && mgr.nextTimer == old(mgr.nextTimer)
    ensures old(mgr.SingleTimerPerRoom()) ==> mgr.SingleTimerPerRoom()
    ensures StatusGate(game).Some? ==>
      outcome == StatusGate(game).value && mgr.rooms == old(mgr.rooms) && mgr.effects == old(mgr.effects)
    ensures StatusGate(game).None? ==>
      var room := if g in old(mgr.rooms) then old(mgr.rooms)[g] else NewRoom();
      if Full(room.players, player.fid) then
        outcome == GameFull && mgr.rooms == old(mgr.rooms) && mgr.effects == old(mgr.effects)
      else
        mgr.rooms == old(mgr.rooms)[g := JoinedRoom(room, player, socketId, game.value.contractGameId)] &&
        (recorded ==> outcome == Joined(Paid(game.value)) &&
                      mgr.effects == old(mgr.effects) + [ParticipantJoined(player.fid, g, Paid(game.value))]) &&
        (!recorded ==> outcome == AddPlayerFailed && mgr.effects == old(mgr.effects))
  {
    var refusal := StatusGate(game);
    if refusal.Some? {
      return refusal.value;
    }
    var room := RoomFor(mgr, g);
    if Full(room.players, player.fid) {
      assert g in old(mgr.rooms);
      return GameFull;
    }
    var paid := Paid(game.value);
    ghost var rooms1 := mgr.rooms;
    var joining := player.(socketId := socketId);
    AddPlayerWithStake(mgr, g, game.value.contractGameId, joining, paid, recorded);
    assert mgr.rooms == rooms1[g := JoinedRoom(room, player, socketId, game.value.contractGameId)];
    UpdateTwice(old(mgr.rooms), g, room, JoinedRoom(room, player, socketId, game.value.contractGameId));
    if !recorded {
      return AddPlayerFailed;
    }
    return Joined(paid);
  }
}
