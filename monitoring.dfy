/** socket/utils/monitoringUtils.js: the periodic statistics snapshot, the stale-game
    sweep and the purge of players who stayed disconnected too long. The timers are left
    to RoomServer.Server; here each sweep is one function of the store and the clock. */
module Monitoring {
  import opened Wrappers
  import opened RoomTypes
  import opened RoomUtils
  import opened RoomHandlers

  /** 30 minutes without activity ends a running game. */
  const StaleTimeLimit: int := 30 * 60 * 1000
  /** 5 minutes disconnected removes a player. */
  const InactiveTimeLimit: int := 5 * 60 * 1000

  // ---------------------------------------------------------------- stale games

  /** The stale-game query: `isCompleted` stored as `false`, already started (`isJoin` false)
      and a recorded last activity strictly older than the limit. A room with no
      `isCompleted` field, or no `lastActivity`, never matches. */
  predicate IsStale(r: Room, now: int) {
    r.isCompleted == Some(false) && !r.isJoin && r.lastActivity.Some? && r.lastActivity.value < now - StaleTimeLimit
  }

  /** A stale room as the sweep saves it: completed now, flagged stale, nothing else touched
      (no version bump). */
  function EndedStale(r: Room, now: int): (e: Room)
    ensures e.isCompleted == Some(true) && e.isStaleGame && e.completedAt == Some(now)
    ensures e.(isCompleted := r.isCompleted, isStaleGame := r.isStaleGame, completedAt := r.completedAt) == r
  {
    r.(isCompleted := Some(true), completedAt := Some(now), isStaleGame := true)
  }

  /** One pass of the stale-game checker. */
  function SweepStaleSpec(rooms: map<string, Room>, now: int): (m: map<string, Room>)
    ensures m.Keys == rooms.Keys
    ensures forall k :: k in rooms && !IsStale(rooms[k], now) ==> m[k] == rooms[k]
    ensures forall k :: k in rooms && IsStale(rooms[k], now) ==> m[k] == EndedStale(rooms[k], now)
  {
    map k | k in rooms :: if IsStale(rooms[k], now) then EndedStale(rooms[k], now) else rooms[k]
  }

  /** After a sweep no room is stale at that instant, and a second sweep at the same
      instant changes nothing. */
  lemma SweepStaleIdempotent(rooms: map<string, Room>, now: int)
    ensures forall k :: k in rooms ==> !IsStale(SweepStaleSpec(rooms, now)[k], now)
    ensures SweepStaleSpec(SweepStaleSpec(rooms, now), now) == SweepStaleSpec(rooms, now)
  {
    var once := SweepStaleSpec(rooms, now);
    assert forall k :: k in once ==> !IsStale(once[k], now);
  }

  /** A room the sweep ended keeps its completion stamp through every later sweep. */
  lemma SweptRoomStaysEnded(rooms: map<string, Room>, now: int, later: int, k: string)
    requires k in rooms && IsStale(rooms[k], now)
    ensures SweepStaleSpec(SweepStaleSpec(rooms, now), later)[k] == EndedStale(rooms[k], now)
  {
  }

  /** The sweep never ends a game still in its lobby, nor one active within the limit. */
  lemma SweepSparesLobbyAndActive(rooms: map<string, Room>, now: int, k: string)
    requires k in rooms
    requires rooms[k].isJoin || rooms[k].lastActivity.None? || rooms[k].lastActivity.value >= now - StaleTimeLimit
    ensures SweepStaleSpec(rooms, now)[k] == rooms[k]
  {
  }

  /** A room whose sync interval last fired at `tick` is not stale at any instant up to
      30 minutes later: while a room keeps players and is not completed, its five-second
      sync keeps refreshing `lastActivity`, so the stale sweep never ends it. */
  lemma SyncTickHoldsOffStaleSweep(rooms: map<string, Room>, roomId: string, tick: int, now: int)
    requires roomId in rooms && !SyncTickSpec(rooms, roomId, tick).stop
    requires now <= tick + StaleTimeLimit
    ensures !IsStale(SyncTickSpec(rooms, roomId, tick).rooms[roomId], now)
    ensures SweepStaleSpec(SyncTickSpec(rooms, roomId, tick).rooms, now)[roomId] == SyncTickSpec(rooms, roomId, tick).rooms[roomId]
  {
  }

  /** createRoom leaves `isCompleted` unset and startGame does not set it, so a started
      room is never ended by the stale sweep however long it stays idle, and the
      statistics never count it as active. */
  lemma StartedRoomNeverSwept(rooms: map<string, Room>, newId: string, socketId: string, nickname: string,
                              data: RoomPayload, created: int, started: int, now: int)
    requires IsValidRoomId(newId) && newId !in rooms && |data.questions| > 0
    ensures var s := StartSpec(CreateRoomSpec(rooms, newId, socketId, nickname, Some(data), created).rooms, newId, started).rooms;
            && newId in s && !s[newId].isJoin && s[newId].isCompleted == None
            && SweepStaleSpec(s, now)[newId] == s[newId]
            && ActiveRooms([(newId, s[newId])]) == []
  {
    var c := CreateRoomSpec(rooms, newId, socketId, nickname, Some(data), created).rooms;
    assert c[newId].isCompleted == None && |c[newId].questions| > 0;
  }

  lemma SweepStalePreservesWellFormed(rooms: map<string, Room>, now: int)
    requires AllWellFormed(rooms)
    ensures AllWellFormed(SweepStaleSpec(rooms, now))
  {
  }

  // ---------------------------------------------------------------- inactive players

  /** The filter's keep condition: connected, never disconnected, or disconnected no longer
      than the limit ago. */
  predicate KeepPlayer(p: Player, now: int) {
    p.isConnected || p.lastDisconnectTime.None? || now - p.lastDisconnectTime.value <= InactiveTimeLimit
  }

  /** `players.filter(shouldKeep)`: the kept players in their original order. */
  function KeepPlayers(ps: seq<Player>, now: int): (kept: seq<Player>)
    ensures |kept| <= |ps|
    ensures |kept| == |ps| <==> forall i :: 0 <= i < |ps| ==> KeepPlayer(ps[i], now)
    ensures |kept| == |ps| ==> kept == ps
  {
    if ps == [] then []
    else if KeepPlayer(ps[0], now) then [ps[0]] + KeepPlayers(ps[1..], now)
    else KeepPlayers(ps[1..], now)
  }

  /** A player is kept exactly when it was on the roster and passes the keep condition. */
  lemma {:induction false} KeepPlayersMembers(ps: seq<Player>, now: int)
    ensures forall p :: p in KeepPlayers(ps, now) ==> p in ps && KeepPlayer(p, now)
    ensures forall p :: p in ps && KeepPlayer(p, now) ==> p in KeepPlayers(ps, now)
  {
    if ps != [] {
      KeepPlayersMembers(ps[1..], now);
      assert ps == [ps[0]] + ps[1..];
    }
  }

  /** `sub` is an order-preserving selection of `full`: its i-th element sits at a strictly
      increasing position of `full`. */
  predicate IsSubsequence<T(==)>(sub: seq<T>, full: seq<T>)
    decreases |full|
  {
    if sub == [] then true
    else if full == [] then false
    else if sub[0] == full[0] then IsSubsequence(sub[1..], full[1..])
    else IsSubsequence(sub, full[1..])
  }

  lemma {:induction false} KeepPlayersKeepsOrder(ps: seq<Player>, now: int)
    ensures IsSubsequence(KeepPlayers(ps, now), ps)
  {
    if ps != [] {
      KeepPlayersKeepsOrder(ps[1..], now);
      if !KeepPlayer(ps[0], now) {
        SubsequenceOfTail(KeepPlayers(ps[1..], now), ps);
      }
    }
  }

  /** Extending the sequence at the front keeps a selection a selection. */
  lemma {:induction false} SubsequenceOfTail<T>(sub: seq<T>, full: seq<T>)
    requires full != [] && IsSubsequence(sub, full[1..])
    ensures IsSubsequence(sub, full)
    decreases |full|, 0
  {
    if sub != [] && sub[0] == full[0] {
      DropHead(sub, full[1..]);
    }
  }

  /** Dropping the first selected element keeps a selection a selection. */
  lemma {:induction false} DropHead<T>(sub: seq<T>, full: seq<T>)
    requires sub != [] && IsSubsequence(sub, full)
    ensures IsSubsequence(sub[1..], full)
    decreases |full|, 1
  {
    if sub[0] == full[0] {
      SubsequenceOfTail(sub[1..], full);
    } else {
      DropHead(sub, full[1..]);
      SubsequenceOfTail(sub[1..], full);
    }
  }

  /** The filter seen one element at a time, as the loop of the cleanup walks it. */
  lemma {:induction false} KeepPlayersSnoc(ps: seq<Player>, p: Player, now: int)
    ensures KeepPlayers(ps + [p], now) == KeepPlayers(ps, now) + (if KeepPlayer(p, now) then [p] else [])
  {
    if ps == [] {
      assert ps + [p] == [p];
      assert [p][1..] == [];
    } else {
      assert (ps + [p])[0] == ps[0];
      assert (ps + [p])[1..] == ps[1..] + [p];
      KeepPlayersSnoc(ps[1..], p, now);
    }
  }

  /** One room after the purge: the roster is reassigned and saved only when somebody was
      removed (no version bump). */
  function PurgeRoom(r: Room, now: int): (p: Room)
    ensures p.(players := r.players) == r
    ensures p.players == KeepPlayers(r.players, now)
  {
    var kept := KeepPlayers(r.players, now);
    if |kept| < |r.players| then r.(players := kept) else r
  }

  /** One pass of the inactive-player cleanup. The query selects every room that holds a
      player the filter would drop, and possibly others (its two conditions may hold for
      different players), where the filter drops nobody; so applying the filter to every
      room gives the same store. */
  function PurgeInactiveSpec(rooms: map<string, Room>, now: int): (m: map<string, Room>)
    ensures m.Keys == rooms.Keys
    ensures forall k :: k in rooms ==> m[k] == PurgeRoom(rooms[k], now)
  {
    map k | k in rooms :: PurgeRoom(rooms[k], now)
  }

  /** Nobody connected is ever purged, nor anyone disconnected within the limit; only the
      long-disconnected go. */
  lemma PurgeKeepsConnected(rooms: map<string, Room>, now: int, k: string, p: Player)
    requires k in rooms && p in rooms[k].players
    ensures p in PurgeInactiveSpec(rooms, now)[k].players <==>
            (p.isConnected || p.lastDisconnectTime.None? || now - p.lastDisconnectTime.value <= InactiveTimeLimit)
  {
    KeepPlayersMembers(rooms[k].players, now);
  }

  /** A second purge at the same instant removes nobody. */
  lemma {:induction false} PurgeIdempotent(rooms: map<string, Room>, now: int)
    ensures PurgeInactiveSpec(PurgeInactiveSpec(rooms, now), now) == PurgeInactiveSpec(rooms, now)
  {
    var once := PurgeInactiveSpec(rooms, now);
    forall k | k in once
      ensures PurgeRoom(once[k], now) == once[k]
    {
      KeepPlayersIdempotent(rooms[k].players, now);
    }
  }

  lemma {:induction false} KeepPlayersIdempotent(ps: seq<Player>, now: int)
    ensures KeepPlayers(KeepPlayers(ps, now), now) == KeepPlayers(ps, now)
  {
    if ps != [] {
      KeepPlayersIdempotent(ps[1..], now);
      if KeepPlayer(ps[0], now) {
        assert ([ps[0]] + KeepPlayers(ps[1..], now))[1..] == KeepPlayers(ps[1..], now);
      }
    }
  }

  lemma PurgePreservesWellFormed(rooms: map<string, Room>, now: int)
    requires AllWellFormed(rooms)
    ensures AllWellFormed(PurgeInactiveSpec(rooms, now))
  {
  }

  // ---------------------------------------------------------------- statistics

  datatype RoomDetail = RoomDetail(id: string, players: nat, questionsCount: nat, currentQuestion: Option<int>, age: int)
  datatype Stats = Stats(timestamp: int, activeRooms: nat, totalPlayers: nat, roomsDetails: seq<RoomDetail>)

  /** The `isCompleted: false` query over a listing of the store, in listing order: a room
      without the field does not match it. */
  function ActiveRooms(listing: seq<(string, Room)>): (active: seq<(string, Room)>)
    ensures |active| <= |listing|
    ensures forall e :: e in active ==> e in listing && e.1.isCompleted == Some(false)
    ensures forall e :: e in listing && e.1.isCompleted == Some(false) ==> e in active
    ensures IsSubsequence(active, listing)
  {
    if listing == [] then []
    else if listing[0].1.isCompleted == Some(false) then
      assert ([listing[0]] + ActiveRooms(listing[1..]))[1..] == ActiveRooms(listing[1..]);
      [listing[0]] + ActiveRooms(listing[1..])
    else
      SubsequenceOfTail(ActiveRooms(listing[1..]), listing);
      ActiveRooms(listing[1..])
  }

  /** `reduce((acc, room) => acc + room.players.length, 0)`. */
  function TotalPlayers(rs: seq<(string, Room)>): nat {
    if rs == [] then 0 else |rs[0].1.players| + TotalPlayers(rs[1..])
  }

  /** The players of the rooms whose `isCompleted` is stored as false, counted over the
      whole listing. */
  function ActivePlayers(listing: seq<(string, Room)>): nat {
    if listing == [] then 0
    else (if listing[0].1.isCompleted == Some(false) then |listing[0].1.players| else 0) + ActivePlayers(listing[1..])
  }

  /** Summing the rosters of the selected rooms counts every player of an active room. */
  lemma {:induction false} ActiveRoomsPlayers(listing: seq<(string, Room)>)
    ensures TotalPlayers(ActiveRooms(listing)) == ActivePlayers(listing)
  {
    if listing != [] {
      ActiveRoomsPlayers(listing[1..]);
      if listing[0].1.isCompleted == Some(false) {
        assert ([listing[0]] + ActiveRooms(listing[1..]))[1..] == ActiveRooms(listing[1..]);
      }
    }
  }

  function DetailPlayers(ds: seq<RoomDetail>): nat {
    if ds == [] then 0 else ds[0].players + DetailPlayers(ds[1..])
  }

  /** The per-room details; `createdAt.getTime()` throws on a room with no creation time,
      which aborts the whole snapshot. */
  function Details(rs: seq<(string, Room)>, now: int): (ds: Option<seq<RoomDetail>>)
    ensures ds.Some? <==> forall i :: 0 <= i < |rs| ==> rs[i].1.createdAt.Some?
    ensures ds.Some? ==> |ds.value| == |rs|
    ensures ds.Some? ==> forall i :: 0 <= i < |rs| ==>
      ds.value[i] == RoomDetail(rs[i].0, |rs[i].1.players|, |rs[i].1.questions|, rs[i].1.currentQuestion,
                                now - rs[i].1.createdAt.value)
  {
    if rs == [] then Some([])
    else
      var r := rs[0].1;
      match r.createdAt
      case None => None
      case Some(c) =>
        match Details(rs[1..], now)
        case None => None
        case Some(rest) => Some([RoomDetail(rs[0].0, |r.players|, |r.questions|, r.currentQuestion, now - c)] + rest)
  }

  /** The monitoring snapshot, or None when it throws. */
  function MonitoringStats(listing: seq<(string, Room)>, now: int): (s: Option<Stats>)
    ensures s.Some? <==> forall e :: e in listing && e.1.isCompleted == Some(false) ==> e.1.createdAt.Some?
    ensures s.Some? ==> s.value.timestamp == now && s.value.activeRooms == |s.value.roomsDetails|
    ensures s.Some? ==> s.value.activeRooms == |ActiveRooms(listing)|
                        && s.value.roomsDetails == Details(ActiveRooms(listing), now).value
    ensures s.Some? ==> s.value.totalPlayers == ActivePlayers(listing)
  {
    var active := ActiveRooms(listing);
    ActiveRoomsPlayers(listing);
    match Details(active, now)
    case None => None
    case Some(ds) => Some(Stats(now, |active|, TotalPlayers(active), ds))
  }

  /** The player total agrees with the sum over the details. */
  lemma {:induction false} TotalPlayersMatchesDetails(listing: seq<(string, Room)>, now: int)
    requires MonitoringStats(listing, now).Some?
    ensures MonitoringStats(listing, now).value.totalPlayers == DetailPlayers(MonitoringStats(listing, now).value.roomsDetails)
  {
    var active := ActiveRooms(listing);
    DetailSum(active, now);
  }

  lemma {:induction false} DetailSum(rs: seq<(string, Room)>, now: int)
    requires Details(rs, now).Some?
    ensures TotalPlayers(rs) == DetailPlayers(Details(rs, now).value)
  {
    if rs != [] {
      DetailSum(rs[1..], now);
    }
  }
}
