/** The older, self-contained room server (src/index.ts): a module-level map
    from room id to room, a 15×15 board per room, players stored under the
    fid they join with, and the socket handlers that change them. Intervals
    are explicit as in the registry: `intervals` maps each running interval's
    handle to the id of the room it ticks, and a tick is a method call. */
module LegacyServer {
  import opened Common
  import opened RoomManager
  import opened SubmitWord

  type RoomId = string

  /** A player of this server; `id` is the fid it joined with. */
  datatype LegacyPlayer = LegacyPlayer(
    id: string,
    displayName: string,
    username: string,
    avatarUrl: string,
    ready: bool,
    staked: bool,
    score: int)

  datatype LegacyRoom = LegacyRoom(
    players: map<string, LegacyPlayer>,
    board: Grid,
    timer: Option<TimerId>,
    timeRemaining: int)

  /** The part of the joining player connect_to_lobby reads. */
  datatype Joining = Joining(fid: string, displayName: string, username: string, avatarUrl: string)

  /** How a board edit ends. `RowOutsideBoard`: `board[row]` is undefined and
      reading a cell of it throws. `WrittenOutsideBoard`: an empty string is
      stored at a column index the board does not have. */
  datatype CellOutcome = NoRoom | RowOutsideBoard | Unchanged | Written | WrittenOutsideBoard

  const LegacyBoardSize: nat := 15
  const LegacyInitialTime: int := 300

  /** A `LegacyBoardSize`-square board. */
  predicate SquareBoard(b: Grid)
  {
    |b| == LegacyBoardSize && forall i | 0 <= i < |b| :: |b[i]| == LegacyBoardSize
  }

  /** The registry's bookkeeping: every running interval has a handle already
      issued and ticks a stored room; every room's stored handle was issued,
      its board is square and each player sits under its own id. */
  predicate LegacyRegistered(rooms: map<RoomId, LegacyRoom>, intervals: map<TimerId, RoomId>, nextTimer: TimerId)
  {
    && (forall t | t in intervals :: t < nextTimer && intervals[t] in rooms)
    && (forall id | id in rooms :: SquareBoard(rooms[id].board))
    && (forall id | id in rooms && rooms[id].timer.Some? :: rooms[id].timer.value < nextTimer)
    && (forall id | id in rooms && rooms[id].timer.Some? && rooms[id].timer.value in intervals ::
          intervals[rooms[id].timer.value] == id)
    && (forall id, k | id in rooms && k in rooms[id].players :: rooms[id].players[k].id == k)
  }

  /** Every running interval is the one its room stores, so a room has at most one. */
  predicate OneTickerPerRoom(rooms: map<RoomId, LegacyRoom>, intervals: map<TimerId, RoomId>)
    requires forall t | t in intervals :: intervals[t] in rooms
  {
    forall t | t in intervals :: rooms[intervals[t]].timer == Some(t)
  }

  /** The entry connect_to_lobby writes for a joining player. */
  function Joined(p: Joining): (e: LegacyPlayer)
    ensures e.id == p.fid && !e.ready && !e.staked && e.score == 0
    ensures e.displayName == p.displayName && e.username == p.username && e.avatarUrl == p.avatarUrl
  {
    LegacyPlayer(p.fid, p.displayName, p.username, p.avatarUrl, false, false, 0)
  }

  /** place_letter on a board: the letter goes into the cell only when the
      cell is empty. */
  function PlacedBoard(b: Grid, row: nat, col: nat, letter: string): (r: Grid)
    requires row < |b| && col < |b[row]|
    ensures |r| == |b| && forall i | 0 <= i < |b| :: |r[i]| == |b[i]|
    ensures r[row][col] == if b[row][col] == "" then letter else b[row][col]
    ensures forall i, j | 0 <= i < |b| && 0 <= j < |b[i]| && (i, j) != (row, col) :: r[i][j] == b[i][j]
  {
    if b[row][col] == "" then b[row := b[row][col := letter]] else b
  }

  /** remove_letter on a board: a non-empty cell is emptied. */
  function ClearedBoard(b: Grid, row: nat, col: nat): (r: Grid)
    requires row < |b| && col < |b[row]|
    ensures |r| == |b| && forall i | 0 <= i < |b| :: |r[i]| == |b[i]|
    ensures r[row][col] == ""
    ensures forall i, j | 0 <= i < |b| && 0 <= j < |b[i]| && (i, j) != (row, col) :: r[i][j] == b[i][j]
  {
    if b[row][col] != "" then b[row := b[row][col := ""]] else b
  }

  /** Removing a letter just placed into an empty cell gives the board back, and
      so does placing back a letter just removed. */
  lemma PlaceRemoveRoundTrip(b: Grid, row: nat, col: nat, letter: string)
    requires row < |b| && col < |b[row]|
    ensures b[row][col] == "" ==> ClearedBoard(PlacedBoard(b, row, col, letter), row, col) == b
    ensures b[row][col] != "" ==> PlacedBoard(ClearedBoard(b, row, col), row, col, b[row][col]) == b
  {
    if b[row][col] == "" {
      assert b[row][col := ""] == b[row];
      if letter == "" {
        assert b[row := b[row]] == b;
      } else {
        var placed := PlacedBoard(b, row, col, letter);
        assert placed[row][col := ""] == b[row];
        assert placed[row := b[row]] == b;
      }
    } else {
      var cleared := ClearedBoard(b, row, col);
      assert cleared[row][col := b[row][col]] == b[row];
      assert cleared[row := b[row]] == b;
    }
  }

  /** The rooms once the socket `socketId` has been disconnected from the rooms
      `visited`: its entry is deleted from each, and a room that it leaves
      empty is deleted. */
  function DisconnectedAmong(rooms: map<RoomId, LegacyRoom>, socketId: string, visited: seq<RoomId>): (r: map<RoomId, LegacyRoom>)
    ensures forall id :: id in r <==>
      id in rooms && !(id in visited && socketId in rooms[id].players && rooms[id].players - {socketId} == map[])
    ensures forall id | id in r :: r[id] == if id in visited then rooms[id].(players := rooms[id].players - {socketId}) else rooms[id]
  {
    map id | id in rooms && !(id in visited && socketId in rooms[id].players && rooms[id].players - {socketId} == map[]) ::
      if id in visited then rooms[id].(players := rooms[id].players - {socketId}) else rooms[id]
  }

  /** The rooms once the socket `socketId` has been disconnected from all of them. */
  function AfterDisconnect(rooms: map<RoomId, LegacyRoom>, socketId: string): (r: map<RoomId, LegacyRoom>)
    ensures forall id :: id in r <==>
      id in rooms && !(socketId in rooms[id].players && rooms[id].players - {socketId} == map[])
    ensures forall id | id in r :: r[id] == rooms[id].(players := rooms[id].players - {socketId})
  {
    map id | id in rooms && !(socketId in rooms[id].players && rooms[id].players - {socketId} == map[]) ::
      rooms[id].(players := rooms[id].players - {socketId})
  }

  /** The disconnect loop has visited every room at its end. */
  lemma AllDisconnected(rooms: map<RoomId, LegacyRoom>, socketId: string, ids: seq<RoomId>)
    requires forall id :: id in ids <==> id in rooms
    ensures DisconnectedAmong(rooms, socketId, ids[..|ids|]) == AfterDisconnect(rooms, socketId)
  {
    assert ids[..|ids|] == ids;
  }

  /** The intervals still ticking a stored room. */
  function LiveTickers(intervals: map<TimerId, RoomId>, rooms: map<RoomId, LegacyRoom>): (r: map<TimerId, RoomId>)
    ensures forall t :: t in r <==> t in intervals && intervals[t] in rooms
    ensures forall t | t in r :: r[t] == intervals[t]
  {
    map t | t in intervals && intervals[t] in rooms :: intervals[t]
  }

  /** After a disconnect no room holds the socket's entry, no room it was in
      is left empty, and the other entries are those before. */
  lemma DisconnectLeavesNoEntry(rooms: map<RoomId, LegacyRoom>, socketId: string)
    ensures var r := AfterDisconnect(rooms, socketId);
      (forall id | id in r :: socketId !in r[id].players) &&
      (forall id | id in r && socketId in rooms[id].players :: r[id].players != map[]) &&
      (forall id, k | id in r && k in r[id].players :: k in rooms[id].players && r[id].players[k] == rooms[id].players[k])
  {
  }

  class RoomServer {
    var rooms: map<RoomId, LegacyRoom>
    var intervals: map<TimerId, RoomId>
    var nextTimer: TimerId

    predicate Valid()
      reads this
    {
      LegacyRegistered(rooms, intervals, nextTimer)
    }

    predicate OneTicker()
      reads this
      requires Valid()
    {
      OneTickerPerRoom(rooms, intervals)
    }

    constructor()
      ensures Valid() && OneTicker()
      ensures rooms == map[] && intervals == map[]
    {
      rooms := map[];
      intervals := map[];
      nextTimer := 0;
    }

    /** connect_to_lobby: create the room when absent (15×15 empty board, no
      timer, 300 seconds), then store the player under its fid, not ready, not
      staked and with no score, over any earlier entry. */
    method ConnectToLobby(roomId: RoomId, p: Joining)
      requires Valid()
      modifies this
      ensures Valid() && intervals == old(intervals) && nextTimer == old(nextTimer)
      ensures old(OneTicker()) ==> OneTicker()
      ensures var before := if roomId in old(rooms) then old(rooms)[roomId]
                            else LegacyRoom(map[], EmptyBoard(LegacyBoardSize), None, LegacyInitialTime);
        rooms == old(rooms)[roomId := before.(players := before.players[p.fid := Joined(p)])]
      ensures roomId !in old(rooms) ==>
        rooms[roomId].timer == None && rooms[roomId].timeRemaining == 300 && rooms[roomId].players.Keys == {p.fid} &&
        forall i, j | 0 <= i < 15 && 0 <= j < 15 :: rooms[roomId].board[i][j] == ""
    {
      var before := if roomId in rooms then rooms[roomId]
                    else LegacyRoom(map[], EmptyBoard(LegacyBoardSize), None, LegacyInitialTime);
      var room := before.(players := before.players[p.fid := Joined(p)]);
      ReplaceKeepsRegistered(rooms, intervals, nextTimer, roomId, room);
      rooms := rooms[roomId := room];
    }

    /** player_ready: flag ready the entry stored under the socket id, if the
      room and such an entry exist. */
    method PlayerReady(socketId: string, roomId: RoomId)
      requires Valid()
      modifies this
      ensures Valid() && intervals == old(intervals) && nextTimer == old(nextTimer)
      ensures old(OneTicker()) ==> OneTicker()
      ensures roomId in old(rooms) && socketId in old(rooms)[roomId].players ==>
        var room := old(rooms)[roomId];
        rooms == old(rooms)[roomId := room.(players := room.players[socketId := room.players[socketId].(ready := true)])]
      ensures !(roomId in old(rooms) && socketId in old(rooms)[roomId].players) ==> rooms == old(rooms)
    {
      if roomId in rooms && socketId in rooms[roomId].players {
        var room := rooms[roomId];
        var room' := room.(players := room.players[socketId := room.players[socketId].(ready := true)]);
        ReplaceKeepsRegistered(rooms, intervals, nextTimer, roomId, room');
        rooms := rooms[roomId := room'];
      }
    }

    /** player_stake_confirmed: flag staked the entry stored under the socket
      id, if the room and such an entry exist. */
    method PlayerStakeConfirmed(socketId: string, roomId: RoomId)
      requires Valid()
      modifies this
      ensures Valid() && intervals == old(intervals) && nextTimer == old(nextTimer)
      ensures old(OneTicker()) ==> OneTicker()
      ensures roomId in old(rooms) && socketId in old(rooms)[roomId].players ==>
        var room := old(rooms)[roomId];
        rooms == old(rooms)[roomId := room.(players := room.players[socketId := room.players[socketId].(staked := true)])]
      ensures !(roomId in old(rooms) && socketId in old(rooms)[roomId].players) ==> rooms == old(rooms)
    {
      if roomId in rooms && socketId in rooms[roomId].players {
        var room := rooms[roomId];
        var room' := room.(players := room.players[socketId := room.players[socketId].(staked := true)]);
        ReplaceKeepsRegistered(rooms, intervals, nextTimer, roomId, room');
        rooms := rooms[roomId := room'];
      }
    }

    /** start_game as written: start a new interval and store its handle in the
      room, without stopping the interval the room stored before. */
    method StartGameAsWritten(roomId: RoomId)
      requires Valid()
      modifies this
      ensures Valid()
      ensures roomId !in old(rooms) ==> rooms == old(rooms) && intervals == old(intervals) && nextTimer == old(nextTimer)
      ensures roomId in old(rooms) ==>
        rooms == old(rooms)[roomId := old(rooms)[roomId].(timer := Some(old(nextTimer)))] &&
        intervals == old(intervals)[old(nextTimer) := roomId] &&
        nextTimer == old(nextTimer) + 1
    {
      if roomId in rooms {
        var handle := nextTimer;
        StartKeepsRegistered(rooms, intervals, intervals, nextTimer, roomId);
        nextTimer := nextTimer + 1;
        intervals := intervals[handle := roomId];
        rooms := rooms[roomId := rooms[roomId].(timer := Some(handle))];
      }
    }

    /** start_game as evidently intended, the way the registry's
      startGameTimer does it: stop the interval the room stores, then start a
      new one. A room never has more than one running interval. */
    method StartGame(roomId: RoomId)
      requires Valid()
      modifies this
      ensures Valid()
      ensures old(OneTicker()) ==> OneTicker()
      ensures roomId !in old(rooms) ==> rooms == old(rooms) && intervals == old(intervals) && nextTimer == old(nextTimer)
      ensures roomId in old(rooms) ==>
        var room := old(rooms)[roomId];
        var stopped := if room.timer.Some? then old(intervals) - {room.timer.value} else old(intervals);
        rooms == old(rooms)[roomId := room.(timer := Some(old(nextTimer)))] &&
        intervals == stopped[old(nextTimer) := roomId] &&
        nextTimer == old(nextTimer) + 1
      ensures old(OneTicker()) && roomId in old(rooms) ==>
        forall t | t in intervals && intervals[t] == roomId :: t == old(nextTimer)
    {
      if roomId in rooms {
        var room := rooms[roomId];
        var stopped := if room.timer.Some? then intervals - {room.timer.value} else intervals;
        StartKeepsRegistered(rooms, intervals, stopped, nextTimer, roomId);
        intervals := stopped;
        var handle := nextTimer;
        nextTimer := nextTimer + 1;
        intervals := intervals[handle := roomId];
        rooms := rooms[roomId := room.(timer := Some(handle))];
      }
    }

    /** One tick of interval `t`: decrement the room's countdown and, once it
      is at or below zero, stop the interval the room stores and report the
      end. */
    method Tick(t: TimerId) returns (remaining: int, ended: bool)
      requires Valid() && t in intervals
      modifies this
      ensures Valid() && nextTimer == old(nextTimer)
      ensures var id := old(intervals)[t];
        var room := old(rooms)[id];
        remaining == room.timeRemaining - 1 &&
        (ended <==> remaining <= 0) &&
        rooms == old(rooms)[id := room.(timeRemaining := remaining)] &&
        intervals == (if ended && room.timer.Some? then old(intervals) - {room.timer.value} else old(intervals))
      ensures old(OneTicker()) ==> OneTicker() && (ended ==> t !in intervals)
    {
      var id := intervals[t];
      var room := rooms[id];
      remaining := room.timeRemaining - 1;
      rooms := rooms[id := room.(timeRemaining := remaining)];
      ended := remaining <= 0;
      if ended && room.timer.Some? {
        intervals := intervals - {room.timer.value};
      }
    }

    /** place_letter: write `letter` at `board[row][col]` when that cell is empty. */
    method PlaceLetter(roomId: RoomId, row: int, col: int, letter: string) returns (outcome: CellOutcome)
      requires Valid()
      modifies this
      ensures Valid() && intervals == old(intervals) && nextTimer == old(nextTimer)
      ensures old(OneTicker()) ==> OneTicker()
      ensures outcome == NoRoom <==> roomId !in old(rooms)
      ensures outcome == RowOutsideBoard <==> roomId in old(rooms) && !(0 <= row < LegacyBoardSize)
      ensures outcome == Written <==>
        roomId in old(rooms) && 0 <= row < 15 && 0 <= col < 15 && old(rooms)[roomId].board[row][col] == ""
      ensures outcome == Written ==>
        var room := old(rooms)[roomId];
        rooms == old(rooms)[roomId := room.(board := PlacedBoard(room.board, row, col, letter))]
      ensures outcome != Written ==> rooms == old(rooms)
      ensures outcome != WrittenOutsideBoard
    {
      if roomId !in rooms {
        return NoRoom;
      }
      var room := rooms[roomId];
      if !(0 <= row < |room.board|) {
        return RowOutsideBoard;
      }
      if !(0 <= col < |room.board[row]|) || room.board[row][col] != "" {
        return Unchanged;
      }
      var room' := room.(board := PlacedBoard(room.board, row, col, letter));
      ReplaceKeepsRegistered(rooms, intervals, nextTimer, roomId, room');
      rooms := rooms[roomId := room'];
      return Written;
    }

    /** remove_letter: empty `board[row][col]` when that cell is not empty. */
    method RemoveLetter(roomId: RoomId, row: int, col: int) returns (outcome: CellOutcome)
      requires Valid()
      modifies this
      ensures Valid() && intervals == old(intervals) && nextTimer == old(nextTimer)
      ensures old(OneTicker()) ==> OneTicker()
      ensures outcome == NoRoom <==> roomId !in old(rooms)
      ensures outcome == RowOutsideBoard <==> roomId in old(rooms) && !(0 <= row < LegacyBoardSize)
      ensures outcome == WrittenOutsideBoard <==> roomId in old(rooms) && 0 <= row < 15 && !(0 <= col < 15)
      ensures outcome == Written <==>
        roomId in old(rooms) && 0 <= row < 15 && 0 <= col < 15 && old(rooms)[roomId].board[row][col] != ""
      ensures outcome == Written ==>
        var room := old(rooms)[roomId];
        rooms == old(rooms)[roomId := room.(board := ClearedBoard(room.board, row, col))]
      ensures outcome != Written ==> rooms == old(rooms)
    {
      if roomId !in rooms {
        return NoRoom;
      }
      var room := rooms[roomId];
      if !(0 <= row < |room.board|) {
        return RowOutsideBoard;
      }
      if !(0 <= col < |room.board[row]|) {
        return WrittenOutsideBoard;
      }
      if room.board[row][col] == "" {
        return Unchanged;
      }
      var room' := room.(board := ClearedBoard(room.board, row, col));
      ReplaceKeepsRegistered(rooms, intervals, nextTimer, roomId, room');
      rooms := rooms[roomId := room'];
      return Written;
    }

    /** submit_word: add the word's JavaScript length to the score of the entry stored
      under the socket id, if the room and such an entry exist. */
    method SubmitWord(socketId: string, roomId: RoomId, word: string) returns (score: Option<nat>)
      requires Valid()
      modifies this
      ensures Valid() && intervals == old(intervals) && nextTimer == old(nextTimer)
      ensures old(OneTicker()) ==> OneTicker()
      ensures score.Some? <==> roomId in old(rooms) && socketId in old(rooms)[roomId].players
      ensures score.Some? ==>
        var room := old(rooms)[roomId];
        var p := room.players[socketId];
        score.value == CalculateWordScore(word) &&
        rooms == old(rooms)[roomId := room.(players := room.players[socketId := p.(score := p.score + score.value)])]
      ensures score.None? ==> rooms == old(rooms)
    {
      if roomId !in rooms || socketId !in rooms[roomId].players {
        return None;
      }
      var credit := CalculateWordScore(word);
      var room := rooms[roomId];
      var p := room.players[socketId];
      var room' := room.(players := room.players[socketId := p.(score := p.score + credit)]);
      ReplaceKeepsRegistered(rooms, intervals, nextTimer, roomId, room');
      rooms := rooms[roomId := room'];
      score := Some(credit);
    }

    /** disconnect: in every room, delete the entry stored under the socket id;
      a room left empty by that has its stored interval stopped and is deleted. */
    method Disconnect(socketId: string)
      requires Valid()
      modifies this
      ensures Valid() && nextTimer == old(nextTimer)
      ensures old(OneTicker()) ==> OneTicker()
      ensures rooms == AfterDisconnect(old(rooms), socketId)
      ensures intervals == LiveTickers(old(intervals), rooms)
    {
      ghost var rooms0, intervals0 := rooms, intervals;
      var ids := KeysOf(rooms);
      assert DisconnectedAmong(rooms0, socketId, []) == rooms0;
      assert LiveTickers(intervals0, rooms0) == intervals0;
      for i := 0 to |ids|
        invariant Valid() && nextTimer == old(nextTimer)
        invariant old(OneTicker()) ==> OneTicker()
        invariant rooms == DisconnectedAmong(rooms0, socketId, ids[..i])
        invariant intervals == LiveTickers(intervals0, rooms)
      {
        NextUnvisited(ids, i);
        DisconnectRoom(ids[i], socketId, rooms0, intervals0, ids[..i]);
      }
      AllDisconnected(rooms0, socketId, ids);
    }

    /** The body of the disconnect loop for the room `id`, not visited before. */
    method DisconnectRoom(id: RoomId, socketId: string, ghost rooms0: map<RoomId, LegacyRoom>,
                          ghost intervals0: map<TimerId, RoomId>, ghost visited: seq<RoomId>)
      requires Valid() && id in rooms0 && id !in visited
      requires rooms == DisconnectedAmong(rooms0, socketId, visited)
      requires intervals == LiveTickers(intervals0, rooms)
      modifies this
      ensures Valid() && nextTimer == old(nextTimer)
      ensures old(OneTicker()) ==> OneTicker()
      ensures rooms == DisconnectedAmong(rooms0, socketId, visited + [id])
      ensures intervals == LiveTickers(intervals0, rooms)
    {
      DisconnectedStep(rooms0, socketId, visited, id);
      var room := rooms[id];
      if socketId !in room.players {
        return;
      }
      var kept := room.players - {socketId};
      if kept == map[] {
        LiveTickersEvict(intervals0, rooms, id, room.timer);
        DeleteRoom(id);
      } else {
        LiveTickersSameKeys(intervals0, rooms, rooms[id := room.(players := kept)]);
        SetPlayers(id, kept);
      }
    }

    /** Stop the interval room `id` stores and delete the room. Intervals of
      the room that it no longer stores keep ticking an object no room id
      leads to; they are dropped with it. */
    method DeleteRoom(id: RoomId)
      requires Valid() && id in rooms
      modifies this
      ensures Valid() && nextTimer == old(nextTimer)
      ensures old(OneTicker()) ==> OneTicker()
      ensures rooms == old(rooms) - {id}
      ensures var timer := old(rooms)[id].timer;
        intervals == LiveTickers(if timer.Some? then old(intervals) - {timer.value} else old(intervals), rooms)
    {
      EvictKeepsRegistered(rooms, intervals, nextTimer, id);
      var timer := rooms[id].timer;
      var stopped := if timer.Some? then intervals - {timer.value} else intervals;
      rooms, intervals := rooms - {id}, LiveTickers(stopped, rooms - {id});
    }

    /** Replace the roster of room `id` by part of it. */
    method SetPlayers(id: RoomId, kept: map<string, LegacyPlayer>)
      requires Valid() && id in rooms
      requires forall k | k in kept :: k in rooms[id].players && kept[k] == rooms[id].players[k]
      modifies this
      ensures Valid() && nextTimer == old(nextTimer) && intervals == old(intervals)
      ensures old(OneTicker()) ==> OneTicker()
      ensures rooms == old(rooms)[id := old(rooms)[id].(players := kept)]
    {
      RosterKeepsRegistered(rooms, intervals, nextTimer, id, kept);
      rooms := rooms[id := rooms[id].(players := kept)];
    }
  }

  /** Deleting a room after stopping the interval it stores keeps the
      bookkeeping, and keeps at most one interval per room. */
  lemma EvictKeepsRegistered(rooms: map<RoomId, LegacyRoom>, intervals: map<TimerId, RoomId>, nextTimer: TimerId, id: RoomId)
    requires LegacyRegistered(rooms, intervals, nextTimer) && id in rooms
    ensures var timer := rooms[id].timer;
      var stopped := if timer.Some? then intervals - {timer.value} else intervals;
      var live := LiveTickers(stopped, rooms - {id});
      LegacyRegistered(rooms - {id}, live, nextTimer) &&
      (OneTickerPerRoom(rooms, intervals) ==> OneTickerPerRoom(rooms - {id}, live))
  {
  }

  /** Starting a new interval for room `id`, after stopping none or the one
      it stores, keeps the bookkeeping; once the stored one is stopped, a room
      with one interval still has one, and its only interval is the new one. */
  lemma StartKeepsRegistered(rooms: map<RoomId, LegacyRoom>, intervals: map<TimerId, RoomId>,
                             stopped: map<TimerId, RoomId>, nextTimer: TimerId, id: RoomId)
    requires LegacyRegistered(rooms, intervals, nextTimer) && id in rooms
    requires stopped == intervals || (rooms[id].timer.Some? && stopped == intervals - {rooms[id].timer.value})
    ensures var rooms' := rooms[id := rooms[id].(timer := Some(nextTimer))];
      var intervals' := stopped[nextTimer := id];
      LegacyRegistered(rooms', intervals', nextTimer + 1) &&
      (OneTickerPerRoom(rooms, intervals) && stopped == (if rooms[id].timer.Some? then intervals - {rooms[id].timer.value} else intervals) ==>
         OneTickerPerRoom(rooms', intervals') && forall t | t in intervals' && intervals'[t] == id :: t == nextTimer)
  {
  }

  /** Storing a room with a square board, its players under their own ids and
      the timer the old room stored (none for a new room) keeps the bookkeeping. */
  lemma ReplaceKeepsRegistered(rooms: map<RoomId, LegacyRoom>, intervals: map<TimerId, RoomId>, nextTimer: TimerId,
                               id: RoomId, room: LegacyRoom)
    requires LegacyRegistered(rooms, intervals, nextTimer)
    requires SquareBoard(room.board) && forall k | k in room.players :: room.players[k].id == k
    requires room.timer == if id in rooms then rooms[id].timer else None
    ensures LegacyRegistered(rooms[id := room], intervals, nextTimer)
    ensures OneTickerPerRoom(rooms, intervals) ==> OneTickerPerRoom(rooms[id := room], intervals)
  {
  }

  /** Replacing a room's roster by part of it keeps the bookkeeping. */
  lemma RosterKeepsRegistered(rooms: map<RoomId, LegacyRoom>, intervals: map<TimerId, RoomId>, nextTimer: TimerId,
                              id: RoomId, kept: map<string, LegacyPlayer>)
    requires LegacyRegistered(rooms, intervals, nextTimer) && id in rooms
    requires forall k | k in kept :: k in rooms[id].players && kept[k] == rooms[id].players[k]
    ensures LegacyRegistered(rooms[id := rooms[id].(players := kept)], intervals, nextTimer)
    ensures OneTickerPerRoom(rooms, intervals) ==> OneTickerPerRoom(rooms[id := rooms[id].(players := kept)], intervals)
  {
  }

  /** One more room visited by the disconnect loop. */
  lemma DisconnectedStep(rooms0: map<RoomId, LegacyRoom>, socketId: string, visited: seq<RoomId>, id: RoomId)
    requires id in rooms0 && id !in visited
    ensures var cur := DisconnectedAmong(rooms0, socketId, visited);
      var kept := rooms0[id].players - {socketId};
      id in cur && cur[id] == rooms0[id] &&
      DisconnectedAmong(rooms0, socketId, visited + [id]) ==
        if socketId !in rooms0[id].players then cur
        else if kept == map[] then cur - {id}
        else cur[id := rooms0[id].(players := kept)]
  {
    if socketId !in rooms0[id].players {
      assert rooms0[id].players - {socketId} == rooms0[id].players;
    }
  }

  /** Stopping the interval a deleted room stores, then dropping the
      intervals of rooms no longer stored. */
  lemma LiveTickersEvict(intervals0: map<TimerId, RoomId>, rooms: map<RoomId, LegacyRoom>, id: RoomId, timer: Option<TimerId>)
    requires timer.Some? && timer.value in intervals0 && intervals0[timer.value] in rooms ==> intervals0[timer.value] == id
    ensures var live := LiveTickers(intervals0, rooms);
      LiveTickers(if timer.Some? then live - {timer.value} else live, rooms - {id}) == LiveTickers(intervals0, rooms - {id})
  {
  }

  lemma LiveTickersSameKeys(intervals0: map<TimerId, RoomId>, rooms: map<RoomId, LegacyRoom>, rooms': map<RoomId, LegacyRoom>)
    requires rooms.Keys == rooms'.Keys
    ensures LiveTickers(intervals0, rooms) == LiveTickers(intervals0, rooms')
  {
  }

  /** start_game as written, twice on a room whose countdown is about to run
      out, then a tick of each interval: the newer interval ends the game and
      is stopped, but the older one, which the room no longer stores, ends
      it again and keeps running. */
  method TwoStartsKeepEnding(s: RoomServer, roomId: RoomId) returns (older: TimerId, firstEnd: bool, secondEnd: bool)
    requires s.Valid() && roomId in s.rooms && s.rooms[roomId].timeRemaining == 1
    modifies s
    ensures firstEnd && secondEnd
    ensures older in s.intervals && s.intervals[older] == roomId
  {
    older := s.nextTimer;
    s.StartGameAsWritten(roomId);
    s.StartGameAsWritten(roomId);
    var newer := older + 1;
    var r1;
    r1, firstEnd := s.Tick(newer);
    var r2;
    r2, secondEnd := s.Tick(older);
  }

  /** The same events with start_game as evidently intended: once the game
      has ended no interval of the room is running. */
  method TwoStartsEndOnce(s: RoomServer, roomId: RoomId) returns (ended: bool)
    requires s.Valid() && s.OneTicker() && roomId in s.rooms && s.rooms[roomId].timeRemaining == 1
    modifies s
    ensures ended
    ensures forall t | t in s.intervals :: s.intervals[t] != roomId
  {
    s.StartGame(roomId);
    s.StartGame(roomId);
    var newer := s.nextTimer - 1;
    var remaining;
    remaining, ended := s.Tick(newer);
  }
}
