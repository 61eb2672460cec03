/** A player leaving (src/handlers/PlayerLeaveHandler.ts): every registered
    room, or only the one named, loses the player with the given fid. */
module PlayerLeave {
  import opened Common
  import opened RoomManager
  import opened RosterScan

  /** `gameId && gameRoomId !== gameId`: an omitted or empty game id selects
      every room, another id only the room with that id. */
  predicate InScope(g: GameId, gameId: Option<GameId>)
  {
    gameId.None? || gameId.value == "" || gameId.value == g
  }

  /** The removals of playerLeave: the player from every room in scope that holds it. */
  function LeaveTargets(rooms: map<GameId, GameRoom>, playerId: Fid, gameId: Option<GameId>): (removed: map<GameId, Fid>)
    ensures forall g :: g in removed <==> g in rooms && InScope(g, gameId) && playerId in rooms[g].players
    ensures forall g | g in removed :: removed[g] == playerId
  {
    map g | g in rooms && InScope(g, gameId) && playerId in rooms[g].players :: playerId
  }

  /** The inner loop: the first entry whose player has fid `playerId`. */
  method FindByFid(players: map<Fid, Player>, playerId: Fid) returns (found: Option<Fid>)
    ensures found.Some? ==> found.value in players && players[found.value].fid == playerId
    ensures found.None? ==> forall k | k in players :: players[k].fid != playerId
  {
    var entries := KeysOf(players);
    for i := 0 to |entries|
      invariant forall j | 0 <= j < i :: players[entries[j]].fid != playerId
    {
      var fid := entries[i];
      if players[fid].fid == playerId {
        return Some(fid);
      }
    }
    return None;
  }

  /** The removals of playerLeave among the rooms `visited` so far. */
  function TargetsAmong(rooms: map<GameId, GameRoom>, playerId: Fid, gameId: Option<GameId>, visited: seq<GameId>): map<GameId, Fid>
  {
    map g | g in rooms && g in visited && InScope(g, gameId) && playerId in rooms[g].players :: playerId
  }

  /** One more room visited by the outer loop. */
  lemma TargetsStep(rooms: map<GameId, GameRoom>, playerId: Fid, gameId: Option<GameId>, visited: seq<GameId>, g: GameId)
    requires g in rooms && g !in visited
    ensures g !in TargetsAmong(rooms, playerId, gameId, visited)
    ensures TargetsAmong(rooms, playerId, gameId, visited + [g]) ==
      if InScope(g, gameId) && playerId in rooms[g].players
      then TargetsAmong(rooms, playerId, gameId, visited)[g := playerId]
      else TargetsAmong(rooms, playerId, gameId, visited)
  {
  }

  /** The body of the outer loop, for the room id `g` not visited before. */
  method LeaveStep(mgr: GameRoomManager, g: GameId, playerId: Fid, gameId: Option<GameId>,
                   ghost rooms0: map<GameId, GameRoom>, ghost intervals0: map<TimerId, Interval>,
                   ghost effects0: seq<Effect>, ghost visited: seq<GameId>, ghost evicted: seq<GameId>)
    returns (ghost evicted': seq<GameId>)
    requires mgr.Valid() && g in rooms0 && g !in visited
    requires ScanProgress(mgr, rooms0, intervals0, effects0, TargetsAmong(rooms0, playerId, gameId, visited), evicted)
    modifies mgr
    ensures mgr.Valid() && mgr.nextTimer == old(mgr.nextTimer)
    ensures old(mgr.SingleTimerPerRoom()) ==> mgr.SingleTimerPerRoom()
    ensures ScanProgress(mgr, rooms0, intervals0, effects0, TargetsAmong(rooms0, playerId, gameId, visited + [g]), evicted')
  {
    evicted' := evicted;
    ghost var removed := TargetsAmong(rooms0, playerId, gameId, visited);
    TargetsStep(rooms0, playerId, gameId, visited, g);
    if !InScope(g, gameId) {
      return;
    }
    assert g in mgr.rooms && mgr.rooms[g] == rooms0[g];
    var room := mgr.GetGameRoom(g);
    if room.Some? {
      var found := FindByFid(room.value.players, playerId);
      if found.Some? {
        assert found.value == playerId;
        evicted' := RemoveScanned(mgr, g, found.value, rooms0, intervals0, effects0, removed, evicted);
      }
    }
  }

  /** playerLeave: scan the registered rooms in scope and remove the player
      with fid `playerId` from each that holds it, through removePlayer (so a
      room left empty is ended and evicted). */
  method Leave(mgr: GameRoomManager, playerId: Fid, gameId: Option<GameId>) returns (ghost evicted: seq<GameId>)
    requires mgr.Valid()
    modifies mgr
    ensures mgr.Valid() && mgr.nextTimer == old(mgr.nextTimer)
    ensures ScanProgress(mgr, old(mgr.rooms), old(mgr.intervals), old(mgr.effects),
                         LeaveTargets(old(mgr.rooms), playerId, gameId), evicted)
    ensures old(mgr.SingleTimerPerRoom()) ==> mgr.SingleTimerPerRoom()
  {
    ghost var rooms0, intervals0, effects0 := mgr.rooms, mgr.intervals, mgr.effects;
    evicted := [];
    ScanStart(mgr);
    assert TargetsAmong(rooms0, playerId, gameId, []) == map[];
    var ids := mgr.GetActiveGames();
    for i := 0 to |ids|
      invariant mgr.Valid() && mgr.nextTimer == old(mgr.nextTimer)
      invariant old(mgr.SingleTimerPerRoom()) ==> mgr.SingleTimerPerRoom()
      invariant ScanProgress(mgr, rooms0, intervals0, effects0, TargetsAmong(rooms0, playerId, gameId, ids[..i]), evicted)
    {
      var g := ids[i];
      NextUnvisited(ids, i);
      evicted := LeaveStep(mgr, g, playerId, gameId, rooms0, intervals0, effects0, ids[..i], evicted);
    }
    AllVisited(rooms0, playerId, gameId, ids);
  }

  /** Every room has been visited at the end of the scan. */
  lemma AllVisited(rooms: map<GameId, GameRoom>, playerId: Fid, gameId: Option<GameId>, ids: seq<GameId>)
    requires forall g :: g in ids <==> g in rooms
    ensures TargetsAmong(rooms, playerId, gameId, ids[..|ids|]) == LeaveTargets(rooms, playerId, gameId)
  {
    assert ids[..|ids|] == ids;
  }

  /** After playerLeave no room in scope holds the player, and every room out
      of scope is untouched. */
  lemma LeftEverywhere(mgr: GameRoomManager, rooms0: map<GameId, GameRoom>, intervals0: map<TimerId, Interval>,
                       effects0: seq<Effect>, playerId: Fid, gameId: Option<GameId>, evicted: seq<GameId>)
    requires ScanProgress(mgr, rooms0, intervals0, effects0, LeaveTargets(rooms0, playerId, gameId), evicted)
    ensures forall g | g in mgr.rooms && InScope(g, gameId) :: playerId !in mgr.rooms[g].players
    ensures forall g | g in rooms0 && !InScope(g, gameId) :: g in mgr.rooms && mgr.rooms[g] == rooms0[g]
  {
  }
}
