/** A rack refresh (src/handlers/RefreshAvailableLetters.ts): one player of one
    room gets seven new letters. */
module RefreshLetters {
  import opened Common
  import opened Letters
  import opened RoomManager

  /** handle: in the room `g`, replace the rack of the player stored under
      `playerId` by seven fresh letters, keeping every other field and every
      other player. `updated` is the player as stored and broadcast; None when
      the room or the player is missing, and then nothing changes. */
  method Refresh(mgr: GameRoomManager, g: GameId, playerId: Fid) returns (updated: Option<Player>)
    requires mgr.Valid()
    modifies mgr
    ensures mgr.Valid() && mgr.intervals == old(mgr.intervals) && mgr.nextTimer == old(mgr.nextTimer)
    ensures mgr.effects == old(mgr.effects)
    ensures updated.Some? <==> g in old(mgr.rooms) && playerId in old(mgr.rooms)[g].players
    ensures updated.Some? ==>
      var room := old(mgr.rooms)[g];
      var rack := updated.value.availableLetters;
      |rack| == 7 && (forall i | 0 <= i < |rack| :: DrawnTile(rack[i], [])) &&
      updated.value == room.players[playerId].(availableLetters := rack) &&
      mgr.rooms == old(mgr.rooms)[g := room.(players := room.players[playerId := updated.value])]
    ensures updated.None? ==> mgr.rooms == old(mgr.rooms)
    ensures old(mgr.SingleTimerPerRoom()) ==> mgr.SingleTimerPerRoom()
  {
    var room := mgr.GetGameRoom(g);
    if room.None? {
      return None;
    }
    if playerId !in room.value.players {
      return None;
    }
    assert 'a' in LetterValues;
    var rack := RandomAvailableLetters(7, []);
    var player := room.value.players[playerId].(availableLetters := rack);
    mgr.rooms := mgr.rooms[g := room.value.(players := room.value.players[playerId := player])];
    updated := Some(player);
  }
}
