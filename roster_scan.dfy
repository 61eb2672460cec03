/** What the leave and disconnect handlers share: a scan over the registered
    rooms that removes, through removePlayer, at most one player per room. The
    result of such a scan is described by the map from each room touched to the
    fid that was removed from it. */
module RosterScan {
  import opened Common
  import opened RoomManager

  /** The rooms once `removed[g]` has been removed from each room `g` of its
      domain, a room whose only player that was being evicted. */
  function AfterRemovals(rooms: map<GameId, GameRoom>, removed: map<GameId, Fid>): (r: map<GameId, GameRoom>)
    ensures forall g :: g in r <==> g in rooms && !(g in removed && rooms[g].players - {removed[g]} == map[])
    ensures forall g | g in r && g !in removed :: r[g] == rooms[g]
    ensures forall g | g in r && g in removed :: r[g] == rooms[g].(players := rooms[g].players - {removed[g]})
  {
    map g | g in rooms && !(g in removed && rooms[g].players - {removed[g]} == map[]) ::
      if g in removed then rooms[g].(players := rooms[g].players - {removed[g]}) else rooms[g]
  }

  /** The intervals of `intervals` whose room is still registered. */
  function Surviving(intervals: map<TimerId, Interval>, rooms: map<GameId, GameRoom>): (r: map<TimerId, Interval>)
    ensures forall t :: t in r <==> t in intervals && intervals[t].gameId in rooms
    ensures forall t | t in r :: r[t] == intervals[t]
  {
    map t | t in intervals && intervals[t].gameId in rooms :: intervals[t]
  }

  /** The records endGame makes for rooms evicted with an empty roster. */
  function Finishes(evicted: seq<GameId>): (r: seq<Effect>)
    ensures |r| == |evicted| && forall i | 0 <= i < |r| :: r[i] == GameFinished(evicted[i], 0)
  {
    seq(|evicted|, i requires 0 <= i < |evicted| => GameFinished(evicted[i], 0))
  }

  /** The registry `rooms`, `intervals`, `effects` after the removals in
      `removed`, made one room at a time from `rooms0`, `intervals0` and
      `effects0`; `evicted` lists the rooms evicted so far, in order. */
  ghost predicate ScanState(rooms: map<GameId, GameRoom>, intervals: map<TimerId, Interval>, effects: seq<Effect>,
                            rooms0: map<GameId, GameRoom>, intervals0: map<TimerId, Interval>,
                            effects0: seq<Effect>, removed: map<GameId, Fid>, evicted: seq<GameId>)
  {
    && (forall g | g in removed :: g in rooms0 && removed[g] in rooms0[g].players)
    && rooms == AfterRemovals(rooms0, removed)
    && intervals == Surviving(intervals0, rooms)
    && effects == effects0 + Finishes(evicted)
    && NoDuplicates(evicted)
    && (forall g :: g in evicted <==> g in rooms0 && g !in rooms)
  }

  /** ScanState of the registry held by `mgr`. */
  ghost predicate ScanProgress(mgr: GameRoomManager, rooms0: map<GameId, GameRoom>, intervals0: map<TimerId, Interval>,
                               effects0: seq<Effect>, removed: map<GameId, Fid>, evicted: seq<GameId>)
    reads mgr
  {
    ScanState(mgr.rooms, mgr.intervals, mgr.effects, rooms0, intervals0, effects0, removed, evicted)
  }

  /** Before any removal the registry is where it started. */
  lemma ScanStart(mgr: GameRoomManager)
    requires mgr.Valid()
    ensures ScanProgress(mgr, mgr.rooms, mgr.intervals, mgr.effects, map[], [])
  {
    assert AfterRemovals(mgr.rooms, map[]) == mgr.rooms;
    assert Surviving(mgr.intervals, mgr.rooms) == mgr.intervals;
  }

  /** removePlayer(g, k) for a room the scan has not touched yet. */
  method RemoveScanned(mgr: GameRoomManager, g: GameId, k: Fid,
                       ghost rooms0: map<GameId, GameRoom>, ghost intervals0: map<TimerId, Interval>,
                       ghost effects0: seq<Effect>, ghost removed: map<GameId, Fid>, ghost evicted: seq<GameId>)
    returns (ghost evicted': seq<GameId>)
    requires mgr.Valid() && ScanProgress(mgr, rooms0, intervals0, effects0, removed, evicted)
    requires g in rooms0 && g !in removed && k in rooms0[g].players
    modifies mgr
    ensures mgr.Valid() && mgr.nextTimer == old(mgr.nextTimer)
    ensures ScanProgress(mgr, rooms0, intervals0, effects0, removed[g := k], evicted')
    ensures old(mgr.SingleTimerPerRoom()) ==> mgr.SingleTimerPerRoom()
  {
    evicted' := ScanStep(mgr.rooms, mgr.intervals, mgr.effects, rooms0, intervals0, effects0, removed, evicted, g, k);
    mgr.RemovePlayer(g, k);
  }

  /** The registry after removePlayer(g, k), for a room the scan has not
      touched yet, is the next state of the scan. */
  lemma ScanStep(rooms: map<GameId, GameRoom>, intervals: map<TimerId, Interval>, effects: seq<Effect>,
                 rooms0: map<GameId, GameRoom>, intervals0: map<TimerId, Interval>,
                 effects0: seq<Effect>, removed: map<GameId, Fid>, evicted: seq<GameId>, g: GameId, k: Fid)
    returns (evicted': seq<GameId>)
    requires ScanState(rooms, intervals, effects, rooms0, intervals0, effects0, removed, evicted)
    requires g in rooms0 && g !in removed && k in rooms0[g].players
    ensures g in rooms && rooms[g] == rooms0[g]
    ensures var kept := rooms[g].players - {k};
      ScanState(RosterSet(rooms, g, kept),
                if kept == map[] then Unscheduled(intervals, g) else intervals,
                effects + (if kept == map[] then [GameFinished(g, 0)] else []),
                rooms0, intervals0, effects0, removed[g := k], evicted')
  {
    AfterRemovalsStep(rooms0, removed, g, k);
    var kept := rooms0[g].players - {k};
    var rooms' := RosterSet(rooms, g, kept);
    if kept == map[] {
      evicted' := evicted + [g];
      SurvivingEvict(intervals0, rooms, g);
      FinishesSnoc(evicted, g);
      AppendAssoc(effects0, Finishes(evicted), [GameFinished(g, 0)]);
      SnocFresh(evicted, g);
      assert forall h :: h in evicted' <==> h in rooms0 && h !in rooms';
    } else {
      evicted' := evicted;
      SurvivingSameKeys(intervals0, rooms, rooms');
      assert forall h :: h in evicted' <==> h in rooms0 && h !in rooms';
    }
  }

  /** One more removal, from a room not touched yet. */
  lemma AfterRemovalsStep(rooms0: map<GameId, GameRoom>, removed: map<GameId, Fid>, g: GameId, k: Fid)
    requires g in rooms0 && g !in removed && k in rooms0[g].players
    ensures var cur := AfterRemovals(rooms0, removed);
      g in cur && cur[g] == rooms0[g] &&
      RosterSet(cur, g, rooms0[g].players - {k}) == AfterRemovals(rooms0, removed[g := k])
  {
    var cur, next := AfterRemovals(rooms0, removed), AfterRemovals(rooms0, removed[g := k]);
    var set' := RosterSet(cur, g, rooms0[g].players - {k});
    assert forall h | h != g :: (h in next <==> h in cur) && (h in next ==> next[h] == cur[h]);
    assert forall h :: h in next <==> h in set';
  }

  lemma FinishesSnoc(evicted: seq<GameId>, g: GameId)
    ensures Finishes(evicted + [g]) == Finishes(evicted) + [GameFinished(g, 0)]
  {
  }

  lemma SurvivingEvict(intervals0: map<TimerId, Interval>, rooms: map<GameId, GameRoom>, g: GameId)
    ensures Unscheduled(Surviving(intervals0, rooms), g) == Surviving(intervals0, rooms - {g})
  {
  }

  lemma SurvivingSameKeys(intervals0: map<TimerId, Interval>, rooms: map<GameId, GameRoom>, rooms': map<GameId, GameRoom>)
    requires rooms.Keys == rooms'.Keys
    ensures Surviving(intervals0, rooms) == Surviving(intervals0, rooms')
  {
  }
}
