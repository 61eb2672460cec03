/** The in-memory room registry (src/game-room-manager.ts): a map from game id
    to room, each room holding its roster keyed by fid, a board, a countdown
    and the handle of its running interval.

    Timers are explicit: `intervals` holds the intervals that are running, by
    handle, and a tick is a method call. Calls to the database are appended to
    `effects` instead of being performed. */
module RoomManager {
  import opened Common
  import opened Letters

  type GameId = string
  type Fid = int
  type TimerId = nat
  type Grid = seq<seq<string>>

  /** A connected player (src/interfaces.ts), with the rack the handlers attach. */
  datatype Player = Player(
    socketId: string,
    fid: Fid,
    displayName: string,
    username: string,
    avatarUrl: string,
    ready: bool,
    score: int,
    board: Grid,
    address: string,
    availableLetters: seq<Tile>)

  /** A room. `contractGameId` is None while nothing has set it: the room the
      registry creates leaves it undefined. */
  datatype GameRoom = GameRoom(
    players: map<Fid, Player>,
    board: Grid,
    timer: Option<TimerId>,
    timeRemaining: int,
    contractGameId: Option<int>)

  /** Which callback a running interval executes. */
  datatype TickerKind = ManagerCountdown | StartHandlerCountdown

  datatype Interval = Interval(gameId: GameId, kind: TickerKind)

  /** Requests made to the database and the chain, in the order they are made. */
  datatype Effect =
    | ParticipantCreated(fid: Fid, gameId: GameId)
    | ParticipantJoined(fid: Fid, gameId: GameId, paid: bool)
    | ParticipantPaid(fid: Fid, gameId: GameId)
    | GameFinished(gameId: GameId, totalFunds: int)
    | ContractGameStarted(contractGameId: int)
    | GamePlaying(gameId: GameId)
    | ContractResultSet(contractGameId: int, isDraw: bool, winners: seq<string>)
    | WinnerRecorded(gameId: GameId, fid: Fid)

  const BoardSize: nat := 10
  const InitialTime: int := 300

  /** An n×n board of empty cells. */
  function EmptyBoard(n: nat): (b: Grid)
    ensures |b| == n
    ensures forall i | 0 <= i < n :: |b[i]| == n && forall j | 0 <= j < n :: b[i][j] == ""
  {
    seq(n, _ => seq(n, _ => ""))
  }

  /** The room createGameRoom stores. */
  function NewRoom(): (r: GameRoom)
  {
    GameRoom(map[], EmptyBoard(BoardSize), None, InitialTime, None)
  }

  /** The sum of the scores of a roster, in whatever order it is enumerated. */
  ghost function TotalScore(players: map<Fid, Player>): int
    decreases |players|
  {
    if players.Keys == {} then 0
    else
      var k := Pick(players.Keys);
      players[k].score + TotalScore(players - {k})
  }

  /** The sum does not depend on the order: any player can be taken out first. */
  lemma {:induction false} TotalScoreRemove(players: map<Fid, Player>, k: Fid)
    requires k in players
    ensures TotalScore(players) == players[k].score + TotalScore(players - {k})
    decreases |players|
  {
    var j := Pick(players.Keys);
    assert TotalScore(players) == players[j].score + TotalScore(players - {j});
    if j != k {
      TotalScoreRemove(players - {j}, k);
      TotalScoreRemove(players - {k}, j);
      assert (players - {j}) - {k} == (players - {k}) - {j};
    }
  }

  /** The reduction endGame applies to the scores of the roster. */
  method SumScores(players: map<Fid, Player>) returns (total: int)
    ensures total == TotalScore(players)
  {
    total := 0;
    var rest := players;
    while rest != map[]
      invariant total + TotalScore(rest) == TotalScore(players)
      decreases |rest|
    {
      var k :| k in rest;
      TotalScoreRemove(rest, k);
      total := total + rest[k].score;
      rest := rest - {k};
    }
  }

  /** The running intervals of every game but `g`. */
  function Unscheduled(intervals: map<TimerId, Interval>, g: GameId): (r: map<TimerId, Interval>)
    ensures forall t :: t in r <==> t in intervals && intervals[t].gameId != g
    ensures forall t | t in r :: r[t] == intervals[t]
  {
    map t | t in intervals && intervals[t].gameId != g :: intervals[t]
  }

  /** The rooms once `g`'s roster has become `kept`: a roster left empty ends
      the game and the room is evicted. */
  function RosterSet(rooms: map<GameId, GameRoom>, g: GameId, kept: map<Fid, Player>): (r: map<GameId, GameRoom>)
    requires g in rooms
    ensures kept == map[] ==> g !in r
    ensures kept != map[] ==> g in r && r[g].players == kept
    ensures forall h | h != g :: (h in r <==> h in rooms) && (h in r ==> r[h] == rooms[h])
  {
    if kept == map[] then rooms - {g} else rooms[g := rooms[g].(players := kept)]
  }

  /** Players are stored under their own fid. */
  predicate KeyedByFid(players: map<Fid, Player>)
  {
    forall k | k in players :: players[k].fid == k
  }

  /** Every running interval belongs to a registered room, the handle a room
      stores was made for that room, and every handle is older than the next one. */
  predicate Registered(rooms: map<GameId, GameRoom>, intervals: map<TimerId, Interval>, nextTimer: TimerId)
  {
    && (forall t | t in intervals :: t < nextTimer && intervals[t].gameId in rooms)
    && (forall g | g in rooms && rooms[g].timer.Some? ::
          rooms[g].timer.value < nextTimer &&
          (rooms[g].timer.value in intervals ==> intervals[rooms[g].timer.value].gameId == g))
    && (forall g | g in rooms :: KeyedByFid(rooms[g].players))
  }

  /** Each running interval is the one its room stores. */
  predicate SingleTimers(rooms: map<GameId, GameRoom>, intervals: map<TimerId, Interval>)
  {
    forall t | t in intervals :: intervals[t].gameId in rooms && rooms[intervals[t].gameId].timer == Some(t)
  }

  /** With each running interval stored by its room, a room has at most one. */
  lemma AtMostOneIntervalPerRoom(rooms: map<GameId, GameRoom>, intervals: map<TimerId, Interval>, t1: TimerId, t2: TimerId)
    requires SingleTimers(rooms, intervals)
    requires t1 in intervals && t2 in intervals && intervals[t1].gameId == intervals[t2].gameId
    ensures t1 == t2
  {
    assert rooms[intervals[t1].gameId].timer == Some(t1);
  }

  class GameRoomManager {
    var rooms: map<GameId, GameRoom>
    var intervals: map<TimerId, Interval>
    var nextTimer: TimerId
    var effects: seq<Effect>

    predicate Valid()
      reads this
    {
      Registered(rooms, intervals, nextTimer)
    }

    /** Every running interval is the one its room stores. */
    predicate SingleTimerPerRoom()
      reads this
    {
      SingleTimers(rooms, intervals)
    }

    constructor()
      ensures Valid() && SingleTimerPerRoom()
      ensures rooms == map[] && intervals == map[] && effects == []
    {
      rooms := map[];
      intervals := map[];
      nextTimer := 0;
      effects := [];
    }

    /** createGameRoom: a fresh room under `g`, replacing any room stored there. */
    method CreateGameRoom(g: GameId) returns (room: GameRoom)
      requires Valid()
      modifies this
      ensures Valid()
      ensures room == NewRoom() && rooms == old(rooms)[g := room]
      ensures room.players == map[] && room.timer == None && room.timeRemaining == 300
      ensures |room.board| == 10 && forall i, j | 0 <= i < 10 && 0 <= j < 10 :: room.board[i][j] == ""
      ensures intervals == Unscheduled(old(intervals), g)
      ensures nextTimer == old(nextTimer) && effects == old(effects)
      ensures old(SingleTimerPerRoom()) ==> SingleTimerPerRoom()
    {
      room := NewRoom();
      rooms := rooms[g := room];
      // An interval of a replaced room keeps running on an object the registry
      // no longer holds; the model stops tracking it.
      intervals := Unscheduled(intervals, g);
    }

    /** getGameRoom. */
    function GetGameRoom(g: GameId): (r: Option<GameRoom>)
      reads this
      ensures r.Some? <==> g in rooms
      ensures r.Some? ==> r.value == rooms[g]
    {
      if g in rooms then Some(rooms[g]) else None
    }

    /** addPlayer: in an existing room, store the player under its fid (replacing
      an entry with the same fid) and create its participant record. */
    method AddPlayer(g: GameId, player: Player)
      requires Valid()
      modifies this
      ensures Valid()
      ensures g !in old(rooms) ==> rooms == old(rooms) && effects == old(effects)
      ensures g in old(rooms) ==>
        rooms == old(rooms)[g := old(rooms)[g].(players := old(rooms)[g].players[player.fid := player])] &&
        effects == old(effects) + [ParticipantCreated(player.fid, g)]
      ensures intervals == old(intervals) && nextTimer == old(nextTimer)
      ensures old(SingleTimerPerRoom()) ==> SingleTimerPerRoom()
    {
      if g in rooms {
        var room := rooms[g];
        rooms := rooms[g := room.(players := room.players[player.fid := player])];
        effects := effects + [ParticipantCreated(player.fid, g)];
      }
    }

    /** endGame: stop the room's interval, record the game as finished with the
      sum of the scores as its total funds, and evict the room. */
    method EndGame(g: GameId)
      requires Valid()
      modifies this
      ensures Valid()
      ensures g !in old(rooms) ==> rooms == old(rooms) && intervals == old(intervals) && effects == old(effects)
      ensures g in old(rooms) ==>
        rooms == old(rooms) - {g} &&
        intervals == Unscheduled(old(intervals), g) &&
        effects == old(effects) + [GameFinished(g, TotalScore(old(rooms)[g].players))]
      ensures nextTimer == old(nextTimer)
      ensures old(SingleTimerPerRoom()) ==> SingleTimerPerRoom()
    {
      if g in rooms {
        var room := rooms[g];
        var total := SumScores(room.players);
        EvictRegistered(rooms, intervals, nextTimer, g);
        var running := intervals;
        if room.timer.Some? {
          StoppedThenUnscheduled(intervals, g, room.timer.value);
          running := running - {room.timer.value};
        }
        effects := effects + [GameFinished(g, total)];
        rooms := rooms - {g};
        // Only the stored handle is cleared; under SingleTimerPerRoom it is the
        // room's only interval, and any other stops being tracked with the room.
        intervals := Unscheduled(running, g);
      }
    }

    /** removePlayer: delete the entry under `fid`; when the roster is then
      empty (even if it was empty already), end the game. */
    method RemovePlayer(g: GameId, fid: Fid)
      requires Valid()
      modifies this
      ensures Valid()
      ensures g !in old(rooms) ==> rooms == old(rooms) && intervals == old(intervals) && effects == old(effects)
      ensures g in old(rooms) ==>
        var kept := old(rooms)[g].players - {fid};
        rooms == RosterSet(old(rooms), g, kept) &&
        intervals == (if kept == map[] then Unscheduled(old(intervals), g) else old(intervals)) &&
        effects == old(effects) + (if kept == map[] then [GameFinished(g, 0)] else [])
      ensures nextTimer == old(nextTimer)
      ensures old(SingleTimerPerRoom()) ==> SingleTimerPerRoom()
    {
      if g in rooms {
        SetRoster(g, rooms[g].players - {fid});
      }
    }

    /** Store `kept` as the roster of `g`; a roster left empty ends the game. */
    method SetRoster(g: GameId, kept: map<Fid, Player>)
      requires Valid() && g in rooms && KeyedByFid(kept)
      modifies this
      ensures Valid()
      ensures rooms == RosterSet(old(rooms), g, kept)
      ensures intervals == (if kept == map[] then Unscheduled(old(intervals), g) else old(intervals))
      ensures effects == old(effects) + (if kept == map[] then [GameFinished(g, 0)] else [])
      ensures nextTimer == old(nextTimer)
      ensures old(SingleTimerPerRoom()) ==> SingleTimerPerRoom()
    {
      var room := rooms[g].(players := kept);
      RosterRegistered(rooms, intervals, nextTimer, g, kept);
      UpdateRemove(rooms, g, room);
      rooms := rooms[g := room];
      if kept == map[] {
        EndGame(g);
      }
    }

    /** updatePlayerReady: set the flag and mark the participant as paid. */
    method UpdatePlayerReady(g: GameId, fid: Fid, ready: bool)
      requires Valid()
      modifies this
      ensures Valid()
      ensures g in old(rooms) && fid in old(rooms)[g].players ==>
        var room := old(rooms)[g];
        rooms == old(rooms)[g := room.(players := room.players[fid := room.players[fid].(ready := ready)])] &&
        effects == old(effects) + [ParticipantPaid(fid, g)]
      ensures !(g in old(rooms) && fid in old(rooms)[g].players) ==> rooms == old(rooms) && effects == old(effects)
      ensures intervals == old(intervals) && nextTimer == old(nextTimer)
      ensures old(SingleTimerPerRoom()) ==> SingleTimerPerRoom()
    {
      if g in rooms && fid in rooms[g].players {
        var room := rooms[g];
        rooms := rooms[g := room.(players := room.players[fid := room.players[fid].(ready := ready)])];
        effects := effects + [ParticipantPaid(fid, g)];
      }
    }

    /** updatePlayerBoard: replace that player's board. */
    method UpdatePlayerBoard(g: GameId, fid: Fid, board: Grid)
      requires Valid()
      modifies this
      ensures Valid()
      ensures g in old(rooms) && fid in old(rooms)[g].players ==>
        var room := old(rooms)[g];
        rooms == old(rooms)[g := room.(players := room.players[fid := room.players[fid].(board := board)])]
      ensures !(g in old(rooms) && fid in old(rooms)[g].players) ==> rooms == old(rooms)
      ensures intervals == old(intervals) && nextTimer == old(nextTimer) && effects == old(effects)
      ensures old(SingleTimerPerRoom()) ==> SingleTimerPerRoom()
    {
      if g in rooms && fid in rooms[g].players {
        var room := rooms[g];
        rooms := rooms[g := room.(players := room.players[fid := room.players[fid].(board := board)])];
      }
    }

    /** updatePlayerScore: the score is assigned, not added to. */
    method UpdatePlayerScore(g: GameId, fid: Fid, score: int)
      requires Valid()
      modifies this
      ensures Valid()
      ensures g in old(rooms) && fid in old(rooms)[g].players ==>
        var room := old(rooms)[g];
        rooms == old(rooms)[g := room.(players := room.players[fid := room.players[fid].(score := score)])]
      ensures !(g in old(rooms) && fid in old(rooms)[g].players) ==> rooms == old(rooms)
      ensures intervals == old(intervals) && nextTimer == old(nextTimer) && effects == old(effects)
      ensures old(SingleTimerPerRoom()) ==> SingleTimerPerRoom()
    {
      if g in rooms && fid in rooms[g].players {
        var room := rooms[g];
        rooms := rooms[g := room.(players := room.players[fid := room.players[fid].(score := score)])];
      }
    }

    /** startGameTimer: stop the interval the room stores, if any, then start a
      new one and store its handle. The countdown itself is not reset. */
    method StartGameTimer(g: GameId)
      requires Valid()
      modifies this
      ensures Valid()
      ensures g !in old(rooms) ==> rooms == old(rooms) && intervals == old(intervals) && nextTimer == old(nextTimer)
      ensures g in old(rooms) ==>
        var room := old(rooms)[g];
        var stopped := if room.timer.Some? then old(intervals) - {room.timer.value} else old(intervals);
        rooms == old(rooms)[g := room.(timer := Some(old(nextTimer)))] &&
        intervals == stopped[old(nextTimer) := Interval(g, ManagerCountdown)] &&
        nextTimer == old(nextTimer) + 1
      ensures effects == old(effects)
      ensures old(SingleTimerPerRoom()) ==> SingleTimerPerRoom()
      ensures old(SingleTimerPerRoom()) && g in old(rooms) ==>
        forall t | t in intervals && intervals[t].gameId == g :: t == old(nextTimer)
    {
      if g in rooms {
        var room := rooms[g];
        var stopped := if room.timer.Some? then intervals - {room.timer.value} else intervals;
        RestartRegistered(rooms, intervals, stopped, nextTimer, g);
        intervals := stopped;
        var handle := nextTimer;
        nextTimer := nextTimer + 1;
        intervals := intervals[handle := Interval(g, ManagerCountdown)];
        rooms := rooms[g := room.(timer := Some(handle))];
      }
    }

    /** One tick of the interval startGameTimer starts: decrement the countdown,
      report it (onTick), and once it is at or below zero stop the interval the
      room stores and report the end (onEnd). */
    method ManagerTick(t: TimerId) returns (remaining: int, ended: bool)
      requires Valid() && t in intervals && intervals[t].kind == ManagerCountdown
      modifies this
      ensures Valid()
      ensures var g := old(intervals)[t].gameId;
        var room := old(rooms)[g];
        remaining == room.timeRemaining - 1 &&
        (ended <==> remaining <= 0) &&
        rooms == old(rooms)[g := room.(timeRemaining := remaining)] &&
        intervals == (if ended && room.timer.Some? then old(intervals) - {room.timer.value} else old(intervals))
      ensures old(SingleTimerPerRoom()) ==> SingleTimerPerRoom() && (ended ==> t !in intervals)
      ensures nextTimer == old(nextTimer) && effects == old(effects)
    {
      var g := intervals[t].gameId;
      var room := rooms[g];
      remaining := room.timeRemaining - 1;
      rooms := rooms[g := room.(timeRemaining := remaining)];
      ended := remaining <= 0;
      if ended && room.timer.Some? {
        intervals := intervals - {room.timer.value};
      }
    }

    /** updateBoard: write `letter` at `board[x][y]` (the first index is x). */
    method UpdateBoard(g: GameId, x: int, y: int, letter: string)
      requires Valid()
      requires g in rooms ==> 0 <= x < |rooms[g].board| && 0 <= y < |rooms[g].board[x]|
      modifies this
      ensures Valid()
      ensures g !in old(rooms) ==> rooms == old(rooms)
      ensures g in old(rooms) ==>
        var room := old(rooms)[g];
        rooms == old(rooms)[g := room.(board := room.board[x := room.board[x][y := letter]])]
      ensures g in old(rooms) ==>
        var before := old(rooms)[g].board;
        var after := rooms[g].board;
        |after| == |before| &&
        forall i | 0 <= i < |before| :: |after[i]| == |before[i]| &&
          forall j | 0 <= j < |before[i]| :: after[i][j] == (if i == x && j == y then letter else before[i][j])
      ensures intervals == old(intervals) && nextTimer == old(nextTimer) && effects == old(effects)
      ensures old(SingleTimerPerRoom()) ==> SingleTimerPerRoom()
    {
      if g in rooms {
        var room := rooms[g];
        rooms := rooms[g := room.(board := room.board[x := room.board[x][y := letter]])];
      }
    }

    /** getActiveGames: every stored game id, once each. */
    method GetActiveGames() returns (ids: seq<GameId>)
      ensures NoDuplicates(ids)
      ensures forall g :: g in ids <==> g in rooms
      ensures |ids| == |rooms|
    {
      ids := KeysOf(rooms);
    }

    /** getGamePlayers: the roster of the room, or nothing for an unknown room. */
    method GetGamePlayers(g: GameId) returns (players: seq<Player>)
      ensures g !in rooms ==> players == []
      ensures g in rooms ==>
        |players| == |rooms[g].players| &&
        (forall p :: p in players <==> exists k | k in rooms[g].players :: rooms[g].players[k] == p)
    {
      if g !in rooms {
        return [];
      }
      var roster := rooms[g].players;
      var ks := KeysOf(roster);
      players := seq(|ks|, i requires 0 <= i < |ks| => roster[ks[i]]);
      forall p | p in players
        ensures exists k | k in roster :: roster[k] == p
      {
        var i :| 0 <= i < |players| && players[i] == p;
        var k := ks[i];
        assert k in roster && roster[k] == p;
      }
      forall p | exists k | k in roster :: roster[k] == p
        ensures p in players
      {
        var k :| k in roster && roster[k] == p;
        var i :| 0 <= i < |ks| && ks[i] == k;
        assert players[i] == p;
      }
    }

    /** disconnectPlayer: remove every player of the room whose socket id
      matches; the removal that empties the roster ends the game. */
    method DisconnectPlayer(g: GameId, socketId: string)
      requires Valid()
      modifies this
      ensures Valid()
      ensures g !in old(rooms) ==> rooms == old(rooms) && intervals == old(intervals) && effects == old(effects)
      ensures g in old(rooms) ==>
        DisconnectProgress(old(rooms), old(intervals), old(effects), g, old(rooms)[g].players,
                           WithoutSocket(old(rooms)[g].players, socketId))
      ensures nextTimer == old(nextTimer)
      ensures old(SingleTimerPerRoom()) ==> SingleTimerPerRoom()
    {
      if g !in rooms {
        return;
      }
      var roster := rooms[g].players;
      ghost var rooms0, intervals0, effects0 := rooms, intervals, effects;
      var fids := KeysOf(roster);
      NoFidVisited(roster, socketId, fids);
      for i := 0 to |fids|
        invariant Valid() && nextTimer == old(nextTimer)
        invariant old(SingleTimerPerRoom()) ==> SingleTimerPerRoom()
        invariant DisconnectProgress(rooms0, intervals0, effects0, g, roster,
                                     WithoutSocketAmong(roster, socketId, fids[..i]))
      {
        VisitFid(g, socketId, roster, fids, i, rooms0, intervals0, effects0);
      }
      AllFidsVisited(roster, socketId, fids);
    }

    /** The state once the roster of `g`, taken from `rooms0`, has been cut down
      to `kept` by removals one player at a time. */
    ghost predicate DisconnectProgress(rooms0: map<GameId, GameRoom>, intervals0: map<TimerId, Interval>,
                                       effects0: seq<Effect>, g: GameId, roster: map<Fid, Player>,
                                       kept: map<Fid, Player>)
      reads this
    {
      && g in rooms0 && rooms0[g].players == roster
      && if kept == roster then
           rooms == rooms0 && intervals == intervals0 && effects == effects0
         else
           rooms == RosterSet(rooms0, g, kept) &&
           intervals == (if kept == map[] then Unscheduled(intervals0, g) else intervals0) &&
           effects == effects0 + (if kept == map[] then [GameFinished(g, 0)] else [])
    }

    /** The body of the disconnect loop for `fids[i]`. */
    method VisitFid(g: GameId, socketId: string, roster: map<Fid, Player>, fids: seq<Fid>, i: int,
                    ghost rooms0: map<GameId, GameRoom>, ghost intervals0: map<TimerId, Interval>,
                    ghost effects0: seq<Effect>)
      requires Valid() && NoDuplicates(fids) && (forall k :: k in fids <==> k in roster) && 0 <= i < |fids|
      requires DisconnectProgress(rooms0, intervals0, effects0, g, roster, WithoutSocketAmong(roster, socketId, fids[..i]))
      modifies this
      ensures Valid() && nextTimer == old(nextTimer)
      ensures old(SingleTimerPerRoom()) ==> SingleTimerPerRoom()
      ensures DisconnectProgress(rooms0, intervals0, effects0, g, roster, WithoutSocketAmong(roster, socketId, fids[..i + 1]))
    {
      var fid := fids[i];
      DisconnectStep(roster, socketId, fids, i);
      if roster[fid].socketId == socketId {
        RemoveMatch(g, fid, rooms0, intervals0, effects0, roster,
                    WithoutSocketAmong(roster, socketId, fids[..i]));
      }
    }

    /** One removal of the disconnect loop. */
    method RemoveMatch(g: GameId, fid: Fid, ghost rooms0: map<GameId, GameRoom>,
                       ghost intervals0: map<TimerId, Interval>, ghost effects0: seq<Effect>,
                       ghost roster: map<Fid, Player>, ghost kept: map<Fid, Player>)
      requires Valid() && fid in kept && kept.Keys <= roster.Keys
      requires DisconnectProgress(rooms0, intervals0, effects0, g, roster, kept)
      modifies this
      ensures Valid() && nextTimer == old(nextTimer)
      ensures old(SingleTimerPerRoom()) ==> SingleTimerPerRoom()
      ensures DisconnectProgress(rooms0, intervals0, effects0, g, roster, kept - {fid})
    {
      assert kept - {fid} != roster by { assert fid !in kept - {fid}; }
      if kept != roster {
        RosterSetTwice(rooms0, g, kept, kept - {fid});
      }
      RemovePlayer(g, fid);
    }
  }

  /** The roster without the players whose socket id is `socketId`. */
  function WithoutSocket(players: map<Fid, Player>, socketId: string): (kept: map<Fid, Player>)
    ensures forall k :: k in kept <==> k in players && players[k].socketId != socketId
    ensures forall k | k in kept :: kept[k] == players[k]
  {
    map k | k in players && players[k].socketId != socketId :: players[k]
  }

  /** The same, for the players visited so far. */
  function WithoutSocketAmong(players: map<Fid, Player>, socketId: string, visited: seq<Fid>): map<Fid, Player>
  {
    map k | k in players && !(k in visited && players[k].socketId == socketId) :: players[k]
  }

  /** Visiting one more fid removes it exactly when its socket id matches; the
      roster empties only once every player has been removed. */
  lemma DisconnectStep(players: map<Fid, Player>, socketId: string, fids: seq<Fid>, i: int)
    requires NoDuplicates(fids) && (forall k :: k in fids <==> k in players) && 0 <= i < |fids|
    ensures var before := WithoutSocketAmong(players, socketId, fids[..i]);
      var after := WithoutSocketAmong(players, socketId, fids[..i + 1]);
      fids[i] in players &&
      (players[fids[i]].socketId == socketId ==> fids[i] in before && after == before - {fids[i]}) &&
      (players[fids[i]].socketId != socketId ==> after == before)
  {
    assert fids[..i + 1] == fids[..i] + [fids[i]];
    var fid := fids[i];
    assert fid in fids;
    var before := WithoutSocketAmong(players, socketId, fids[..i]);
    var after := WithoutSocketAmong(players, socketId, fids[..i + 1]);
    assert forall j | 0 <= j < i :: fids[..i][j] == fids[j] && fids[j] != fid;
    if players[fids[i]].socketId == socketId {
      assert after.Keys == before.Keys - {fids[i]};
    } else {
      assert after.Keys == before.Keys;
    }
  }

  lemma NoFidVisited(players: map<Fid, Player>, socketId: string, fids: seq<Fid>)
    ensures WithoutSocketAmong(players, socketId, fids[..0]) == players
  {
    assert fids[..0] == [];
  }

  lemma AllFidsVisited(players: map<Fid, Player>, socketId: string, fids: seq<Fid>)
    requires forall k :: k in fids <==> k in players
    ensures WithoutSocketAmong(players, socketId, fids[..|fids|]) == WithoutSocket(players, socketId)
  {
    assert fids[..|fids|] == fids;
    var visited := WithoutSocketAmong(players, socketId, fids);
    assert forall k :: k in visited <==> k in WithoutSocket(players, socketId);
  }

  /** Setting a non-empty roster and then another is setting the second. */
  lemma RosterSetTwice(rooms: map<GameId, GameRoom>, g: GameId, first: map<Fid, Player>, second: map<Fid, Player>)
    requires g in rooms && first != map[]
    ensures RosterSet(RosterSet(rooms, g, first), g, second) == RosterSet(rooms, g, second)
  {
    if second == map[] {
      assert RosterSet(RosterSet(rooms, g, first), g, second) == rooms - {g};
    }
  }

  /** Evicting a room together with its intervals keeps the registry consistent. */
  lemma EvictRegistered(rooms: map<GameId, GameRoom>, intervals: map<TimerId, Interval>, nextTimer: TimerId, g: GameId)
    requires Registered(rooms, intervals, nextTimer)
    ensures Registered(rooms - {g}, Unscheduled(intervals, g), nextTimer)
    ensures SingleTimers(rooms, intervals) ==> SingleTimers(rooms - {g}, Unscheduled(intervals, g))
  {
  }

  /** Stopping the interval a room stores, then all of the room's intervals,
      stops exactly the room's intervals. */
  lemma StoppedThenUnscheduled(intervals: map<TimerId, Interval>, g: GameId, t: TimerId)
    requires t in intervals ==> intervals[t].gameId == g
    ensures Unscheduled(intervals - {t}, g) == Unscheduled(intervals, g)
  {
    assert Unscheduled(intervals - {t}, g).Keys == Unscheduled(intervals, g).Keys;
  }

  /** Starting a new interval for `g` once the one it stores is stopped keeps
      the bookkeeping, and leaves the new interval the only one of `g`. */
  lemma RestartRegistered(rooms: map<GameId, GameRoom>, intervals: map<TimerId, Interval>,
                          stopped: map<TimerId, Interval>, nextTimer: TimerId, g: GameId)
    requires Registered(rooms, intervals, nextTimer) && g in rooms
    requires stopped == if rooms[g].timer.Some? then intervals - {rooms[g].timer.value} else intervals
    ensures var rooms' := rooms[g := rooms[g].(timer := Some(nextTimer))];
      var intervals' := stopped[nextTimer := Interval(g, ManagerCountdown)];
      Registered(rooms', intervals', nextTimer + 1) &&
      (SingleTimers(rooms, intervals) ==>
         SingleTimers(rooms', intervals') && forall t | t in intervals' && intervals'[t].gameId == g :: t == nextTimer)
  {
  }

  /** Replacing a room's roster by one keyed by fid keeps the registry consistent. */
  lemma RosterRegistered(rooms: map<GameId, GameRoom>, intervals: map<TimerId, Interval>, nextTimer: TimerId,
                         g: GameId, kept: map<Fid, Player>)
    requires Registered(rooms, intervals, nextTimer) && g in rooms && KeyedByFid(kept)
    ensures Registered(rooms[g := rooms[g].(players := kept)], intervals, nextTimer)
    ensures SingleTimers(rooms, intervals) ==> SingleTimers(rooms[g := rooms[g].(players := kept)], intervals)
  {
  }
}
