/** Starting a game and settling it (src/handlers/StartGameHandler.ts): the
    start gate, the 60-second countdown the handler runs itself, the ranking of
    the participants when it expires, and the racks dealt at the start. */
module StartGame {
  import opened Common
  import opened Letters
  import opened RoomManager

  /** The status of the stored game record. */
  datatype GameStatus = Pending | Playing | Finished

  /** The stored game record as the handlers read it; `contractGameId` is
      None where the record has none. */
  datatype GameRecord = GameRecord(status: GameStatus, betAmount: int, contractGameId: Option<int>)

  /** A stored participant of a game, with the points it was credited. */
  datatype Participant = Participant(fid: Fid, points: int, address: string, displayName: string)

  /** How a call of the handler ends. `ContractGameIdMissing`: the room has no
      contract game id, so converting it to a string throws before the chain
      call; the loading event has been broadcast by then. */
  datatype StartOutcome =
    | NoRoom
    | NotEnoughReady
    | AlreadyPlaying
    | ContractGameIdMissing
    | Started(timer: TimerId, order: seq<Fid>, dealt: seq<Player>)

  /** How one tick of the handler's countdown ends. */
  datatype TickOutcome =
    | Ticked(remaining: int)
    | EndedWithoutParticipants
    | EndedWithoutContractGameId
    | Ended(winners: seq<Participant>, isDraw: bool, winner: Participant, notified: bool)

  const StartTime: int := 60
  const RackSize: nat := 7

  /** The fids of the players flagged ready. */
  function ReadyPlayers(players: map<Fid, Player>): (ready: set<Fid>)
    ensures ready <= players.Keys
    ensures forall k :: k in ready <==> k in players && players[k].ready
  {
    set k | k in players && players[k].ready
  }

  /** The gate of the handler, in its order: a missing room, fewer than two
      ready players, a game already PLAYING (an unknown game passes), and a
      room without contract game id. None: the game starts. */
  function StartGate(rooms: map<GameId, GameRoom>, g: GameId, game: Option<GameRecord>): (refusal: Option<StartOutcome>)
    ensures refusal.None? <==>
      g in rooms && |ReadyPlayers(rooms[g].players)| >= 2 &&
      !(game.Some? && game.value.status == Playing) && rooms[g].contractGameId.Some?
    ensures refusal.Some? ==> !refusal.value.Started?
    ensures refusal == Some(NoRoom) <==> g !in rooms
    ensures g in rooms && |ReadyPlayers(rooms[g].players)| < 2 ==> refusal == Some(NotEnoughReady)
  {
    if g !in rooms then Some(NoRoom)
    else if |ReadyPlayers(rooms[g].players)| < 2 then Some(NotEnoughReady)
    else if game.Some? && game.value.status == Playing then Some(AlreadyPlaying)
    else if rooms[g].contractGameId.None? then Some(ContractGameIdMissing)
    else None
  }

  /** handle: check the gate; then start the game on the chain, mark it
      PLAYING, set the countdown to 60 and start a new interval, without
      stopping one the room may already run, and deal every player a rack of
      seven letters for the broadcast (the rooms keep their racks). */
  method Handle(mgr: GameRoomManager, g: GameId, game: Option<GameRecord>) returns (outcome: StartOutcome)
    requires mgr.Valid()
    modifies mgr
    ensures mgr.Valid()
    ensures var refusal := StartGate(old(mgr.rooms), g, game);
      (refusal.Some? ==> outcome == refusal.value) && (refusal.None? <==> outcome.Started?)
    ensures !outcome.Started? ==>
      mgr.rooms == old(mgr.rooms) && mgr.intervals == old(mgr.intervals) &&
      mgr.nextTimer == old(mgr.nextTimer) && mgr.effects == old(mgr.effects)
    ensures outcome.Started? ==>
      var room := old(mgr.rooms)[g];
      outcome.timer == old(mgr.nextTimer) &&
      mgr.rooms == old(mgr.rooms)[g := room.(timeRemaining := StartTime, timer := Some(outcome.timer))] &&
      mgr.intervals == old(mgr.intervals)[outcome.timer := Interval(g, StartHandlerCountdown)] &&
      mgr.nextTimer == old(mgr.nextTimer) + 1 &&
      mgr.effects == old(mgr.effects) + [ContractGameStarted(room.contractGameId.value), GamePlaying(g)] &&
      Dealt(room.players, outcome.order, outcome.dealt)
    ensures outcome.Started? && old(mgr.SingleTimerPerRoom()) ==>
      var old_timer := old(mgr.rooms)[g].timer;
      (mgr.SingleTimerPerRoom() <==> !(old_timer.Some? && old_timer.value in old(mgr.intervals)))
  {
    var refusal := StartGate(mgr.rooms, g, game);
    if refusal.Some? {
      return refusal.value;
    }
    var room := mgr.rooms[g];
    StartedTimers(mgr.rooms, mgr.intervals, g, mgr.nextTimer);
    mgr.effects := mgr.effects + [ContractGameStarted(room.contractGameId.value), GamePlaying(g)];
    var handle := mgr.nextTimer;
    mgr.nextTimer := mgr.nextTimer + 1;
    mgr.intervals := mgr.intervals[handle := Interval(g, StartHandlerCountdown)];
    mgr.rooms := mgr.rooms[g := room.(timeRemaining := StartTime, timer := Some(handle))];
    var order, dealt := DealRacks(room.players);
    outcome := Started(handle, order, dealt);
  }

  /** The roster enumerated as `order`, each player with a fresh rack of seven. */
  ghost predicate Dealt(players: map<Fid, Player>, order: seq<Fid>, dealt: seq<Player>)
  {
    && NoDuplicates(order)
    && (forall k :: k in order <==> k in players)
    && |dealt| == |order|
    && forall i | 0 <= i < |order| ::
         && dealt[i] == players[order[i]].(availableLetters := dealt[i].availableLetters)
         && |dealt[i].availableLetters| == RackSize
         && forall j | 0 <= j < RackSize :: DrawnTile(dealt[i].availableLetters[j], [])
  }

  /** The rack dealing at the end of handle. */
  method DealRacks(players: map<Fid, Player>) returns (order: seq<Fid>, dealt: seq<Player>)
    ensures Dealt(players, order, dealt)
  {
    order := KeysOf(players);
    dealt := [];
    LetterTableCoversAlphabet('e');
    for i := 0 to |order|
      invariant |dealt| == i
      invariant forall n | 0 <= n < i ::
        && dealt[n] == players[order[n]].(availableLetters := dealt[n].availableLetters)
        && |dealt[n].availableLetters| == RackSize
        && forall j | 0 <= j < RackSize :: DrawnTile(dealt[n].availableLetters[j], [])
    {
      var rack := RandomAvailableLetters(RackSize, []);
      dealt := dealt + [players[order[i]].(availableLetters := rack)];
    }
  }

  /** Storing a new handle for `g` keeps at most one running interval per room
      exactly when the handle the room held before was not running. */
  lemma StartedTimers(rooms: map<GameId, GameRoom>, intervals: map<TimerId, Interval>, g: GameId, handle: TimerId)
    requires g in rooms && Registered(rooms, intervals, handle)
    ensures Registered(rooms[g := rooms[g].(timeRemaining := StartTime, timer := Some(handle))],
                       intervals[handle := Interval(g, StartHandlerCountdown)], handle + 1)
    ensures SingleTimers(rooms, intervals) ==>
      var old_timer := rooms[g].timer;
      SingleTimers(rooms[g := rooms[g].(timeRemaining := StartTime, timer := Some(handle))],
                   intervals[handle := Interval(g, StartHandlerCountdown)])
      <==> !(old_timer.Some? && old_timer.value in intervals)
  {
    var rooms' := rooms[g := rooms[g].(timeRemaining := StartTime, timer := Some(handle))];
    var intervals' := intervals[handle := Interval(g, StartHandlerCountdown)];
    var old_timer := rooms[g].timer;
    if SingleTimers(rooms, intervals) && old_timer.Some? && old_timer.value in intervals {
      assert intervals'[old_timer.value].gameId == g;
      assert rooms'[g].timer != Some(old_timer.value);
    }
  }

  /** One tick of the handler's countdown, for the interval `t`: decrement the
      countdown of its room and broadcast it (`broadcast`, on every tick, the
      last one included); at or below zero, settle the game. */
  method StartTick(mgr: GameRoomManager, t: TimerId, participants: seq<Participant>, delivered: bool)
    returns (broadcast: int, outcome: TickOutcome)
    requires mgr.Valid() && t in mgr.intervals && mgr.intervals[t].kind == StartHandlerCountdown
    modifies mgr
    ensures mgr.Valid() && mgr.nextTimer == old(mgr.nextTimer)
    ensures var g := old(mgr.intervals)[t].gameId;
      var room := old(mgr.rooms)[g];
      var remaining := room.timeRemaining - 1;
      && broadcast == remaining
      && (remaining > 0 <==> outcome == Ticked(remaining))
      && (remaining > 0 ==>
            mgr.rooms == old(mgr.rooms)[g := room.(timeRemaining := remaining)] &&
            mgr.intervals == old(mgr.intervals) && mgr.effects == old(mgr.effects))
      && (remaining <= 0 ==>
            Settled(old(mgr.rooms), old(mgr.intervals), old(mgr.effects), g, room.(timeRemaining := remaining),
                    participants, delivered, mgr.rooms, mgr.intervals, mgr.effects, outcome))
    ensures old(mgr.SingleTimerPerRoom()) ==> mgr.SingleTimerPerRoom() && (!outcome.Ticked? ==> t !in mgr.intervals)
  {
    var g := mgr.intervals[t].gameId;
    var room := mgr.rooms[g];
    var remaining := room.timeRemaining - 1;
    broadcast := remaining;
    if remaining > 0 {
      mgr.rooms := mgr.rooms[g := room.(timeRemaining := remaining)];
      return remaining, Ticked(remaining);
    }
    outcome := Settle(mgr, g, room.(timeRemaining := remaining), participants, delivered);
  }

  /** The intervals once clearInterval has been called on `timer`. */
  function Cleared(intervals: map<TimerId, Interval>, timer: Option<TimerId>): (r: map<TimerId, Interval>)
    ensures timer.Some? ==> r.Keys == intervals.Keys - {timer.value}
    ensures timer.None? ==> r == intervals
    ensures forall u | u in r :: r[u] == intervals[u]
  {
    if timer.Some? then intervals - {timer.value} else intervals
  }

  /** The end of the countdown of `g`, whose room is now `room`: the interval
      the room stores is stopped; without participants nothing else happens;
      a room without contract game id stops at the chain call; otherwise the
      result (draw flag and winners' addresses) and the winner are recorded,
      the end is broadcast whatever happened to the winner's message, and the
      handle is forgotten. */
  ghost predicate Settled(rooms: map<GameId, GameRoom>, intervals: map<TimerId, Interval>, effects: seq<Effect>,
                          g: GameId, room: GameRoom, participants: seq<Participant>, delivered: bool,
                          rooms': map<GameId, GameRoom>, intervals': map<TimerId, Interval>, effects': seq<Effect>,
                          outcome: TickOutcome)
  {
    && intervals' == Cleared(intervals, room.timer)
    && (|participants| == 0 ==>
          outcome == EndedWithoutParticipants && rooms' == rooms[g := room] && effects' == effects)
    && (|participants| > 0 && room.contractGameId.None? ==>
          outcome == EndedWithoutContractGameId && rooms' == rooms[g := room] && effects' == effects)
    && (|participants| > 0 && room.contractGameId.Some? ==>
          var winners := Winners(participants);
          outcome == Ended(winners, |winners| > 1, winners[0], delivered) &&
          rooms' == rooms[g := room.(timer := None)] &&
          effects' == effects + [ContractResultSet(room.contractGameId.value, |winners| > 1, Addresses(winners)),
                                 WinnerRecorded(g, winners[0].fid)])
  }

  /** The settlement branch of the tick, for the room `g` whose countdown has
      become that of `room`. */
  method Settle(mgr: GameRoomManager, g: GameId, room: GameRoom, participants: seq<Participant>, delivered: bool)
    returns (outcome: TickOutcome)
    requires mgr.Valid() && g in mgr.rooms && room == mgr.rooms[g].(timeRemaining := room.timeRemaining)
    modifies mgr
    ensures mgr.Valid() && mgr.nextTimer == old(mgr.nextTimer)
    ensures Settled(old(mgr.rooms), old(mgr.intervals), old(mgr.effects), g, room, participants,
                    delivered, mgr.rooms, mgr.intervals, mgr.effects, outcome)
    ensures !outcome.Ticked?
    ensures old(mgr.SingleTimerPerRoom()) ==>
      mgr.SingleTimerPerRoom() && forall u | u in mgr.intervals :: mgr.intervals[u].gameId != g
  {
    var sorted := SortByPointsDesc(participants);
    RankingFromSort(participants);
    if |sorted| == 0 {
      Conclude(mgr, g, room, room, []);
      return EndedWithoutParticipants;
    }
    var top := sorted[0].points;
    var winners := Filter(sorted, top);
    if room.contractGameId.None? {
      Conclude(mgr, g, room, room, []);
      return EndedWithoutContractGameId;
    }
    var isDraw := |winners| > 1;
    var winner := winners[0];
    // The second clearInterval finds the handle already stopped.
    Conclude(mgr, g, room, room.(timer := None),
             [ContractResultSet(room.contractGameId.value, isDraw, Addresses(winners)), WinnerRecorded(g, winner.fid)]);
    outcome := Ended(winners, isDraw, winner, delivered);
  }

  /** The registry changes at the end of the countdown: the interval `room`
      stores is stopped, the room becomes `final` (itself, or itself with its
      handle forgotten) and the requests `made` are recorded. */
  method Conclude(mgr: GameRoomManager, g: GameId, room: GameRoom, final: GameRoom, made: seq<Effect>)
    requires mgr.Valid() && g in mgr.rooms && room == mgr.rooms[g].(timeRemaining := room.timeRemaining)
    requires final == room || final == room.(timer := None)
    modifies mgr
    ensures mgr.Valid() && mgr.nextTimer == old(mgr.nextTimer)
    ensures mgr.rooms == old(mgr.rooms)[g := final]
    ensures mgr.intervals == Cleared(old(mgr.intervals), room.timer)
    ensures mgr.effects == old(mgr.effects) + made
    ensures made == [] ==> mgr.effects == old(mgr.effects)
    ensures old(mgr.SingleTimerPerRoom()) ==>
      mgr.SingleTimerPerRoom() && forall u | u in mgr.intervals :: mgr.intervals[u].gameId != g
  {
    ConcludeRegistered(mgr.rooms, mgr.intervals, mgr.nextTimer, g, room, final);
    mgr.rooms := mgr.rooms[g := final];
    mgr.intervals := Cleared(mgr.intervals, room.timer);
    if made != [] {
      mgr.effects := mgr.effects + made;
    }
  }

  lemma ConcludeRegistered(rooms: map<GameId, GameRoom>, intervals: map<TimerId, Interval>, nextTimer: TimerId,
                            g: GameId, room: GameRoom, final: GameRoom)
    requires Registered(rooms, intervals, nextTimer) && g in rooms
    requires room == rooms[g].(timeRemaining := room.timeRemaining)
    requires final == room || final == room.(timer := None)
    ensures Registered(rooms[g := final], Cleared(intervals, room.timer), nextTimer)
  {
  }

  /** The wallet addresses of the winners, in order. */
  function Addresses(ps: seq<Participant>): (addrs: seq<string>)
    ensures |addrs| == |ps| && forall i | 0 <= i < |ps| :: addrs[i] == ps[i].address
  {
    seq(|ps|, i requires 0 <= i < |ps| => ps[i].address)
  }

  /** The highest number of points among the participants. */
  function MaxPoints(ps: seq<Participant>): (m: int)
    requires |ps| > 0
    ensures forall i | 0 <= i < |ps| :: ps[i].points <= m
    ensures exists i | 0 <= i < |ps| :: ps[i].points == m
  {
    if |ps| == 1 then ps[0].points
    else
      var rest := MaxPoints(ps[1..]);
      assert forall i | 1 <= i < |ps| :: ps[i] == ps[1..][i - 1];
      if ps[0].points >= rest then ps[0].points else rest
  }

  /** The participants with exactly `points`, in their order. */
  function Filter(ps: seq<Participant>, points: int): (r: seq<Participant>)
    ensures forall p :: p in r <==> p in ps && p.points == points
    ensures |r| <= |ps|
  {
    if |ps| == 0 then []
    else (if ps[0].points == points then [ps[0]] else []) + Filter(ps[1..], points)
  }

  /** The winners: every participant with the top score, in store order. */
  function Winners(ps: seq<Participant>): (w: seq<Participant>)
    requires |ps| > 0
    ensures |w| > 0
    ensures forall p :: p in w <==> p in ps && forall q | q in ps :: q.points <= p.points
  {
    var i :| 0 <= i < |ps| && ps[i].points == MaxPoints(ps);
    assert ps[i] in Filter(ps, MaxPoints(ps));
    Filter(ps, MaxPoints(ps))
  }

  /** Participants ordered by points, highest first; participants with equal
      points keep their order (the sort of an array is stable). */
  function SortByPointsDesc(ps: seq<Participant>): (s: seq<Participant>)
    ensures SortedDesc(s)
    ensures multiset(s) == multiset(ps)
  {
    if |ps| == 0 then []
    else
      var front := SortByPointsDesc(ps[..|ps| - 1]);
      assert ps == ps[..|ps| - 1] + [ps[|ps| - 1]];
      InsertSorted(front, ps[|ps| - 1])
  }

  predicate SortedDesc(s: seq<Participant>)
  {
    forall i, j | 0 <= i < j < |s| :: s[i].points >= s[j].points
  }

  /** Insert `p` after every participant with at least as many points. */
  function InsertSorted(s: seq<Participant>, p: Participant): (r: seq<Participant>)
    requires SortedDesc(s)
    ensures SortedDesc(r)
    ensures multiset(r) == multiset(s) + multiset{p}
    ensures forall q | q in r :: q in s || q == p
  {
    if |s| == 0 then [p]
    else if s[0].points >= p.points then
      var tail := InsertSorted(s[1..], p);
      HeadTail(s);
      assert multiset(s) == multiset{s[0]} + multiset(s[1..]);
      assert multiset([s[0]] + tail) == multiset{s[0]} + multiset(tail);
      SortedCons(s[0], tail);
      [s[0]] + tail
    else
      SortedCons(p, s);
      [p] + s
  }

  /** A participant with at least the points of everyone in a sorted list can
      head it. */
  lemma SortedCons(x: Participant, t: seq<Participant>)
    requires SortedDesc(t) && (forall q | q in t :: q.points <= x.points)
    ensures SortedDesc([x] + t)
  {
    forall i, j | 0 <= i < j < |[x] + t|
      ensures ([x] + t)[i].points >= ([x] + t)[j].points
    {
      assert ([x] + t)[j] == t[j - 1];
      if i > 0 {
        assert ([x] + t)[i] == t[i - 1];
      } else {
        assert t[j - 1] in t;
      }
    }
  }

  /** Inserting keeps the participants with any given score in their order. */
  lemma {:induction false} InsertKeepsTies(s: seq<Participant>, p: Participant, points: int)
    requires SortedDesc(s)
    ensures Filter(InsertSorted(s, p), points) == Filter(s, points) + (if p.points == points then [p] else [])
    decreases |s|
  {
    var extra := if p.points == points then [p] else [];
    if |s| == 0 {
      assert InsertSorted(s, p) == [p] + s;
      FilterCons(p, s, points);
      assert Filter(s, points) == [];
    } else if s[0].points >= p.points {
      var head := if s[0].points == points then [s[0]] else [];
      var tail := InsertSorted(s[1..], p);
      assert InsertSorted(s, p) == [s[0]] + tail;
      InsertKeepsTies(s[1..], p, points);
      FilterCons(s[0], tail, points);
      HeadTail(s);
      FilterCons(s[0], s[1..], points);
      assert Filter(InsertSorted(s, p), points) == head + (Filter(s[1..], points) + extra);
      AppendAssoc(head, Filter(s[1..], points), extra);
    } else {
      assert InsertSorted(s, p) == [p] + s;
      FilterCons(p, s, points);
      if p.points == points {
        NoneAbove(s, points);
        assert Filter(s, points) + extra == extra + Filter(s, points);
      } else {
        assert Filter(s, points) + extra == extra + Filter(s, points);
      }
    }
  }

  lemma FilterCons(x: Participant, t: seq<Participant>, points: int)
    ensures Filter([x] + t, points) == (if x.points == points then [x] else []) + Filter(t, points)
  {
    assert ([x] + t)[0] == x && ([x] + t)[1..] == t;
  }

  /** No participant of a list sorted from `s[0]` down has more than s[0]'s points. */
  lemma {:induction false} NoneAbove(s: seq<Participant>, points: int)
    requires SortedDesc(s) && |s| > 0 && s[0].points < points
    ensures Filter(s, points) == []
    decreases |s|
  {
    if |s| > 1 {
      NoneAbove(s[1..], points);
    }
  }

  /** Sorting keeps the participants with any given score in their order. */
  lemma {:induction false} SortKeepsTies(ps: seq<Participant>, points: int)
    ensures Filter(SortByPointsDesc(ps), points) == Filter(ps, points)
    decreases |ps|
  {
    if |ps| > 0 {
      var front, last := ps[..|ps| - 1], ps[|ps| - 1];
      assert ps == front + [last];
      assert SortByPointsDesc(ps) == InsertSorted(SortByPointsDesc(front), last);
      SortKeepsTies(front, points);
      InsertKeepsTies(SortByPointsDesc(front), last, points);
      FilterAppend(front, [last], points);
      FilterCons(last, [], points);
      assert [last] + [] == [last];
    }
  }

  lemma {:induction false} FilterAppend(a: seq<Participant>, b: seq<Participant>, points: int)
    ensures Filter(a + b, points) == Filter(a, points) + Filter(b, points)
    decreases |a|
  {
    if |a| == 0 {
      assert a + b == b;
    } else {
      var head := if a[0].points == points then [a[0]] else [];
      HeadTail(a);
      AppendAssoc([a[0]], a[1..], b);
      FilterCons(a[0], a[1..] + b, points);
      FilterCons(a[0], a[1..], points);
      FilterAppend(a[1..], b, points);
      AppendAssoc(head, Filter(a[1..], points), Filter(b, points));
    }
  }

  /** What the end of the countdown computes: the first participant after the
      sort has the top score, and filtering the sorted list by it yields the
      winners in store order; a draw is more than one winner. */
  lemma RankingFromSort(ps: seq<Participant>)
    ensures var s := SortByPointsDesc(ps);
      |s| == |ps| &&
      (|ps| > 0 ==> s[0].points == MaxPoints(ps) && Filter(s, s[0].points) == Winners(ps))
  {
    var s := SortByPointsDesc(ps);
    assert |s| == |multiset(s)| == |multiset(ps)| == |ps|;
    if |ps| > 0 {
      var m := MaxPoints(ps);
      var i :| 0 <= i < |ps| && ps[i].points == m;
      assert ps[i] in multiset(s);
      assert s[0] in multiset(ps);
      SortKeepsTies(ps, m);
    }
  }
}
