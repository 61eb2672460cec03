/** A socket disconnecting (src/handlers/DisconnectPlayer.ts): in every
    registered room, the first player found whose socket id is the
    disconnected one is removed. */
module DisconnectHandler {
  import opened Common
  import opened RoomManager
  import opened RosterScan

  /** Some player of `players` is connected through `socketId`. */
  predicate HasSocket(players: map<Fid, Player>, socketId: string)
  {
    exists k | k in players :: players[k].socketId == socketId
  }

  /** `removed` is a choice of removals for the disconnect of `socketId` among
      the rooms `visited`: exactly the visited rooms with a player on that
      socket, each losing one such player. */
  ghost predicate RemovalsAmong(rooms: map<GameId, GameRoom>, socketId: string, visited: seq<GameId>, removed: map<GameId, Fid>)
  {
    && (forall g :: g in removed <==> g in rooms && g in visited && HasSocket(rooms[g].players, socketId))
    && (forall g | g in removed :: removed[g] in rooms[g].players && rooms[g].players[removed[g]].socketId == socketId)
  }

  /** The inner loop: the first entry whose player has socket id `socketId`. */
  method FindBySocket(players: map<Fid, Player>, socketId: string) returns (found: Option<Fid>)
    ensures found.Some? ==> found.value in players && players[found.value].socketId == socketId
    ensures found.None? <==> !HasSocket(players, socketId)
  {
    var entries := KeysOf(players);
    for i := 0 to |entries|
      invariant forall j | 0 <= j < i :: players[entries[j]].socketId != socketId
    {
      var fid := entries[i];
      if players[fid].socketId == socketId {
        return Some(fid);
      }
    }
    return None;
  }

  /** The body of the outer loop, for the room id `g` not visited before. */
  method DisconnectRoom(mgr: GameRoomManager, g: GameId, socketId: string,
                        ghost rooms0: map<GameId, GameRoom>, ghost intervals0: map<TimerId, Interval>,
                        ghost effects0: seq<Effect>, ghost visited: seq<GameId>,
                        ghost removed: map<GameId, Fid>, ghost evicted: seq<GameId>)
    returns (ghost removed': map<GameId, Fid>, ghost evicted': seq<GameId>)
    requires mgr.Valid() && g in rooms0 && g !in visited
    requires RemovalsAmong(rooms0, socketId, visited, removed)
    requires ScanProgress(mgr, rooms0, intervals0, effects0, removed, evicted)
    modifies mgr
    ensures mgr.Valid() && mgr.nextTimer == old(mgr.nextTimer)
    ensures old(mgr.SingleTimerPerRoom()) ==> mgr.SingleTimerPerRoom()
    ensures RemovalsAmong(rooms0, socketId, visited + [g], removed')
    ensures ScanProgress(mgr, rooms0, intervals0, effects0, removed', evicted')
  {
    removed', evicted' := removed, evicted;
    assert g !in removed;
    assert g in mgr.rooms && mgr.rooms[g] == rooms0[g];
    var room := mgr.GetGameRoom(g);
    if room.Some? {
      var found := FindBySocket(room.value.players, socketId);
      if found.Some? {
        removed' := removed[g := found.value];
        evicted' := RemoveScanned(mgr, g, found.value, rooms0, intervals0, effects0, removed, evicted);
      }
    }
  }

  /** disconnectPlayer: scan the registered rooms and, in each, remove through
      removePlayer the first player found on socket `socketId` (a room left
      empty is ended and evicted). `removed` records which player left which
      room. */
  method Disconnect(mgr: GameRoomManager, socketId: string) returns (ghost removed: map<GameId, Fid>, ghost evicted: seq<GameId>)
    requires mgr.Valid()
    modifies mgr
    ensures mgr.Valid() && mgr.nextTimer == old(mgr.nextTimer)
    ensures forall g :: g in removed <==> g in old(mgr.rooms) && HasSocket(old(mgr.rooms)[g].players, socketId)
    ensures forall g | g in removed :: removed[g] in old(mgr.rooms)[g].players && old(mgr.rooms)[g].players[removed[g]].socketId == socketId
    ensures ScanProgress(mgr, old(mgr.rooms), old(mgr.intervals), old(mgr.effects), removed, evicted)
    ensures old(mgr.SingleTimerPerRoom()) ==> mgr.SingleTimerPerRoom()
  {
    ghost var rooms0, intervals0, effects0 := mgr.rooms, mgr.intervals, mgr.effects;
    removed, evicted := map[], [];
    ScanStart(mgr);
    var ids := mgr.GetActiveGames();
    for i := 0 to |ids|
      invariant mgr.Valid() && mgr.nextTimer == old(mgr.nextTimer)
      invariant old(mgr.SingleTimerPerRoom()) ==> mgr.SingleTimerPerRoom()
      invariant RemovalsAmong(rooms0, socketId, ids[..i], removed)
      invariant ScanProgress(mgr, rooms0, intervals0, effects0, removed, evicted)
    {
      var g := ids[i];
      NextUnvisited(ids, i);
      removed, evicted := DisconnectRoom(mgr, g, socketId, rooms0, intervals0, effects0, ids[..i], removed, evicted);
    }
    assert ids[..|ids|] == ids;
  }

  /** A socket that no player of any room uses disconnects without effect. */
  lemma UnknownSocketChangesNothing(mgr: GameRoomManager, rooms0: map<GameId, GameRoom>, intervals0: map<TimerId, Interval>,
                                    effects0: seq<Effect>, socketId: string, removed: map<GameId, Fid>, evicted: seq<GameId>)
    requires forall g | g in rooms0 :: !HasSocket(rooms0[g].players, socketId)
    requires forall g :: g in removed <==> g in rooms0 && HasSocket(rooms0[g].players, socketId)
    requires forall t | t in intervals0 :: intervals0[t].gameId in rooms0
    requires ScanProgress(mgr, rooms0, intervals0, effects0, removed, evicted)
    ensures mgr.rooms == rooms0 && mgr.intervals == intervals0
    ensures forall h :: h !in evicted
  {
    assert removed == map[];
    assert AfterRemovals(rooms0, map[]) == rooms0;
  }
}
