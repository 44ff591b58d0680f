/** The room store behind socket/socket.service.js: the documents (by room id), the
    module-level lock flags of roomUtils.js and the set of rooms with a running sync
    interval. Each handler and sweep is one atomic method; its reply and new store are
    exactly those of the matching specification function. */
module RoomServer {
  import opened Wrappers
  import opened RoomTypes
  import opened RoomUtils
  import opened RoomHandlers
  import opened GameHandlers
  import opened Monitoring

  /** Setting a flag and then resetting it leaves the flag map as resetting it alone does. */
  lemma FlagOverwritten(m: map<string, bool>, k: string, a: bool, b: bool)
    ensures m[k := a][k := b] == m[k := b]
  {
  }

  class Server {
    var rooms: map<string, Room>
    /** `roomLocks`: true while a locked handler runs. */
    var locks: map<string, bool>
    /** The keys of `roomSyncIntervals`. */
    var syncing: set<string>

    /** Between two steps every room is well formed and stored under a valid id, and no
        lock flag is left set. */
    ghost predicate Valid()
      reads this
    {
      && AllWellFormed(rooms)
      && (forall k :: k in rooms ==> IsValidRoomId(k))
      && (forall k :: k in locks ==> !locks[k])
    }

    constructor()
      ensures rooms == map[] && locks == map[] && syncing == {}
      ensures Valid()
    {
      rooms := map[];
      locks := map[];
      syncing := {};
    }

    /** `updateRoomState`: bump the stored room, if any. */
    method Touch(roomId: string, now: int)
      modifies this
      ensures rooms == UpdateRoomState(old(rooms), roomId, now)
      ensures locks == old(locks) && syncing == old(syncing)
    {
      if roomId in rooms {
        var room := rooms[roomId];
        rooms := rooms[roomId := room.(lastActivity := Some(now), version := room.version + 1)];
      }
    }

    /** `scheduleRoomStateSync`: (re)registers the room's interval. */
    method ScheduleSync(roomId: string)
      modifies this
      ensures syncing == old(syncing) + {roomId}
      ensures rooms == old(rooms) && locks == old(locks)
    {
      syncing := syncing + {roomId};
    }

    /** `withRoomLock`'s flag, taken before the callback ... */
    method Acquire(roomId: string)
      modifies this
      ensures locks == old(locks)[roomId := true]
      ensures rooms == old(rooms) && syncing == old(syncing)
    {
      locks := locks[roomId := true];
    }

    /** ... and reset in its `finally`, on every exit path. */
    method Release(roomId: string)
      modifies this
      ensures locks == old(locks)[roomId := false]
      ensures rooms == old(rooms) && syncing == old(syncing)
    {
      locks := locks[roomId := false];
    }

    method CreateRoom(newId: string, socketId: string, nickname: string, payload: Option<RoomPayload>, now: int)
      returns (reply: Reply)
      requires Valid() && IsValidRoomId(newId) && newId !in rooms
      modifies this
      ensures Step(reply, rooms) == CreateRoomSpec(old(rooms), newId, socketId, nickname, payload, now)
      ensures syncing == if reply == Ok then old(syncing) + {newId} else old(syncing)
      ensures locks == old(locks)
      ensures Valid()
    {
      if payload.None? {
        reply := Err(CreateRoomError);
      } else {
        var creator := NewPlayer(socketId, nickname, X, true, Some(now));
        rooms := rooms[newId := NewRoom(creator, payload.value, Some(now))];
        ScheduleSync(newId);
        reply := Ok;
      }
      CreatePreservesWellFormed(old(rooms), newId, socketId, nickname, payload, now);
    }

    method JoinRoom(roomId: string, socketId: string, nickname: string, now: int) returns (reply: Reply)
      requires Valid()
      modifies this
      ensures Step(reply, rooms) == JoinSpec(old(rooms), roomId, socketId, nickname, now)
      ensures syncing == if reply == Ok then old(syncing) + {roomId} else old(syncing)
      ensures locks == old(locks)[roomId := false]
      ensures Valid()
    {
      Acquire(roomId);
      if !IsValidRoomId(roomId) {
        reply := Err(InvalidRoomId);
      } else if roomId !in rooms {
        reply := Err(RoomNotFound);
      } else {
        var room := rooms[roomId];
        if !room.isJoin {
          reply := Err(GameAlreadyStarted);
        } else if IndexOfSocket(room.players, socketId).Some? {
          reply := Err(DuplicatePlayer);
        } else {
          var guest := NewPlayer(socketId, nickname, O, true, Some(now));
          rooms := rooms[roomId := room.(players := room.players + [guest], lastActivity := Some(now))];
          ScheduleSync(roomId);
          Touch(roomId, now);
          reply := Ok;
        }
      }
      Release(roomId);
      FlagOverwritten(old(locks), roomId, true, false);
      JoinPreservesWellFormed(old(rooms), roomId, socketId, nickname, now);
    }

    method StartGame(roomId: string, now: int) returns (reply: Reply)
      requires Valid()
      modifies this
      ensures Step(reply, rooms) == StartSpec(old(rooms), roomId, now)
      ensures syncing == old(syncing)
      ensures locks == old(locks)[roomId := false]
      ensures Valid()
    {
      Acquire(roomId);
      if !IsValidRoomId(roomId) {
        reply := Err(InvalidRoomId);
      } else if roomId !in rooms {
        reply := Err(RoomNotFound);
      } else if |rooms[roomId].questions| == 0 {
        reply := Err(StartGameError);
      } else {
        var room := rooms[roomId];
        var starts := ComputeSchedule(now, room.questions);
        room := room.(isJoin := false, gameStartTime := Some(now + StartDelay), questionStartTimes := starts,
                      currentQuestion := Some(0),
                      questionEndTime := Some(starts[0] + room.questions[0].time * 1000),
                      lastActivity := Some(now));
        assert room == Started(rooms[roomId], now);
        rooms := rooms[roomId := room];
        Touch(roomId, now);
        reply := Ok;
      }
      Release(roomId);
      FlagOverwritten(old(locks), roomId, true, false);
      StartPreservesWellFormed(old(rooms), roomId, now);
    }

    method RequestRoomState(roomId: string, socketId: string, now: int) returns (reply: Reply)
      requires Valid()
      modifies this
      ensures Step(reply, rooms) == RequestStateSpec(old(rooms), roomId, socketId, now)
      ensures locks == old(locks) && syncing == old(syncing)
      ensures Valid()
    {
      if !IsValidRoomId(roomId) {
        reply := Err(InvalidRoomId);
      } else if roomId !in rooms {
        reply := Err(RoomNotFound);
      } else {
        var room := rooms[roomId];
        var found := IndexOfSocket(room.players, socketId);
        if found.None? {
          reply := Err(NotInRoom);
        } else {
          var i := found.value;
          var p := room.players[i].(isConnected := true, lastActivityTime := Some(now));
          rooms := rooms[roomId := room.(players := room.players[i := p])];
          reply := Ok;
        }
      }
      RequestStatePreservesWellFormed(old(rooms), roomId, socketId, now);
    }

    method Reconnect(roomId: string, previousId: string, socketId: string) returns (reply: Reply)
      requires Valid()
      modifies this
      ensures Step(reply, rooms) == ReconnectSpec(old(rooms), roomId, previousId, socketId)
      ensures locks == old(locks) && syncing == old(syncing)
      ensures Valid()
    {
      if !IsValidRoomId(roomId) {
        reply := Err(InvalidRoomId);
      } else if roomId !in rooms {
        reply := Err(RoomNotFound);
      } else {
        var room := rooms[roomId];
        var found := IndexOfSocket(room.players, previousId);
        if found.None? {
          reply := Err(PlayerNotFound);
        } else {
          var i := found.value;
          var p := room.players[i].(socketID := socketId, isConnected := true);
          rooms := rooms[roomId := room.(players := room.players[i := p])];
          reply := Ok;
        }
      }
      ReconnectPreservesWellFormed(old(rooms), roomId, previousId, socketId);
    }

    method Tap(req: TapRequest, now: int) returns (reply: Reply)
      requires Valid()
      modifies this
      ensures Step(reply, rooms) == TapSpec(old(rooms), req, now)
      ensures syncing == old(syncing)
      ensures locks == old(locks)[req.roomId := false]
      ensures Valid()
    {
      Acquire(req.roomId);
      if !TapFieldsPresent(req) {
        reply := Err(ValidationError);
      } else if req.roomId !in rooms {
        reply := Err(TapError);
      } else {
        var room := rooms[req.roomId];
        var found := IndexOfSocket(room.players, req.playerId);
        if found.None? {
          reply := Err(TapError);
        } else {
          var i := found.value;
          rooms := rooms[req.roomId := room.(players := room.players[i := Answered(room.players[i], req, now)],
                                             lastActivity := Some(now))];
          Touch(req.roomId, now);
          reply := Ok;
        }
      }
      Release(req.roomId);
      FlagOverwritten(old(locks), req.roomId, true, false);
      TapPreservesWellFormed(old(rooms), req, now);
    }

    method NextQuestion(roomId: string, questionIndex: Option<int>, now: int) returns (reply: Reply)
      requires Valid()
      modifies this
      ensures Step(reply, rooms) == NextQuestionSpec(old(rooms), roomId, questionIndex, now)
      ensures syncing == old(syncing)
      ensures locks == old(locks)[roomId := false]
      ensures Valid()
    {
      Acquire(roomId);
      if !IsValidRoomId(roomId) {
        reply := Err(InvalidRoomId);
      } else if roomId !in rooms {
        reply := Err(RoomNotFound);
      } else if IndexRejected(rooms[roomId], questionIndex) {
        reply := Err(InvalidQuestionIndex);
      } else if questionIndex.None? {
        reply := Err(NextQuestionError);
      } else {
        rooms := rooms[roomId := Advanced(rooms[roomId], questionIndex.value, now)];
        Touch(roomId, now);
        reply := Ok;
      }
      Release(roomId);
      FlagOverwritten(old(locks), roomId, true, false);
      NextQuestionPreservesWellFormed(old(rooms), roomId, questionIndex, now);
    }

    /** handleDisconnect: every room holding the socket, one after the other. */
    method Disconnect(socketId: string, now: int)
      requires Valid()
      modifies this
      ensures rooms == DisconnectSpec(old(rooms), socketId, now)
      ensures locks == old(locks) && syncing == old(syncing)
      ensures Valid()
    {
      DisconnectPreservesWellFormed(rooms, socketId, now);
      rooms := DisconnectAll(rooms, socketId, now);
    }

    /** The walk over the stored rooms behind handleDisconnect. */
    static method DisconnectAll(rooms: map<string, Room>, socketId: string, now: int) returns (store: map<string, Room>)
      ensures store == DisconnectSpec(rooms, socketId, now)
    {
      store := rooms;
      var pending := store.Keys;
      while pending != {}
        invariant pending <= store.Keys && store.Keys == rooms.Keys
        invariant forall k :: k in pending ==> store[k] == rooms[k]
        invariant forall k :: k in store && k !in pending ==> store[k] == DisconnectRoom(rooms[k], socketId, now)
        decreases pending
      {
        var k :| k in pending;
        var room := store[k];
        var found := IndexOfSocket(room.players, socketId);
        if found.Some? {
          var i := found.value;
          var p := room.players[i].(isConnected := false, lastDisconnectTime := Some(now));
          store := store[k := room.(players := room.players[i := p])];
          store := UpdateRoomState(store, k, now);
        }
        pending := pending - {k};
      }
    }


    /** setupStaleGamesChecker, one firing. */
    method SweepStale(now: int)
      requires Valid()
      modifies this
      ensures rooms == SweepStaleSpec(old(rooms), now)
      ensures locks == old(locks) && syncing == old(syncing)
      ensures Valid()
    {
      SweepStalePreservesWellFormed(rooms, now);
      rooms := EndStaleGames(rooms, now);
    }

    /** The walk over the stored rooms behind the stale-game checker. */
    static method EndStaleGames(rooms: map<string, Room>, now: int) returns (store: map<string, Room>)
      ensures store == SweepStaleSpec(rooms, now)
    {
      store := rooms;
      var pending := store.Keys;
      while pending != {}
        invariant pending <= store.Keys && store.Keys == rooms.Keys
        invariant forall k :: k in pending ==> store[k] == rooms[k]
        invariant forall k :: k in store && k !in pending ==> store[k] == SweepStaleSpec(rooms, now)[k]
        decreases pending
      {
        var k :| k in pending;
        var room := store[k];
        if room.isCompleted == Some(false) && !room.isJoin && room.lastActivity.Some? && room.lastActivity.value < now - StaleTimeLimit {
          room := room.(isCompleted := Some(true), completedAt := Some(now), isStaleGame := true);
          store := store[k := room];
        }
        pending := pending - {k};
      }
    }


    /** The `players.filter` of the cleanup with its `hasChanges` flag. */
    static method FilterPlayers(ps: seq<Player>, now: int) returns (kept: seq<Player>, hasChanges: bool)
      ensures kept == KeepPlayers(ps, now)
      ensures hasChanges <==> exists i :: 0 <= i < |ps| && !KeepPlayer(ps[i], now)
    {
      kept := [];
      hasChanges := false;
      var i := 0;
      while i < |ps|
        invariant 0 <= i <= |ps|
        invariant kept == KeepPlayers(ps[..i], now)
        invariant hasChanges <==> |kept| < i
      {
        var p := ps[i];
        assert ps[..i + 1] == ps[..i] + [p];
        KeepPlayersSnoc(ps[..i], p, now);
        if KeepPlayer(p, now) {
          kept := kept + [p];
        } else {
          hasChanges := true;
        }
        i := i + 1;
      }
      assert ps[..|ps|] == ps;
    }

    /** setupInactivePlayersCleanup, one firing: a room is saved only when somebody was removed. */
    method PurgeInactive(now: int)
      requires Valid()
      modifies this
      ensures rooms == PurgeInactiveSpec(old(rooms), now)
      ensures locks == old(locks) && syncing == old(syncing)
      ensures Valid()
    {
      PurgePreservesWellFormed(rooms, now);
      rooms := PurgeRooms(rooms, now);
    }

    /** The walk over the stored rooms behind the inactive-player cleanup. */
    static method PurgeRooms(rooms: map<string, Room>, now: int) returns (store: map<string, Room>)
      ensures store == PurgeInactiveSpec(rooms, now)
    {
      store := rooms;
      var pending := store.Keys;
      while pending != {}
        invariant pending <= store.Keys && store.Keys == rooms.Keys
        invariant forall k :: k in pending ==> store[k] == rooms[k]
        invariant forall k :: k in store && k !in pending ==> store[k] == PurgeRoom(rooms[k], now)
        decreases pending
      {
        var k :| k in pending;
        var room := store[k];
        var kept, hasChanges := FilterPlayers(room.players, now);
        if hasChanges {
          store := store[k := room.(players := kept)];
        }
        pending := pending - {k};
      }
    }


    /** One firing of a room's sync interval; when it stops, the interval is dropped. */
    method SyncTick(roomId: string, now: int) returns (stopped: bool)
      requires Valid() && roomId in syncing
      modifies this
      ensures SyncOutcome(stopped, rooms) == SyncTickSpec(old(rooms), roomId, now)
      ensures syncing == if stopped then old(syncing) - {roomId} else old(syncing)
      ensures locks == old(locks)
      ensures Valid()
    {
      var found := if roomId in rooms then Some(rooms[roomId]) else None;
      if found == None || |found.value.players| == 0 || found.value.isCompleted == Some(true) {
        syncing := syncing - {roomId};
        stopped := true;
      } else {
        rooms := rooms[roomId := found.value.(lastActivity := Some(now))];
        stopped := false;
      }
      SyncTickPreservesWellFormed(old(rooms), roomId, now);
    }

    /** `cleanupRoom`: drops only this room's interval and clears only this room's flag. */
    method CleanupRoom(roomId: string)
      modifies this
      ensures syncing == old(syncing) - {roomId}
      ensures locks == if roomId in old(locks) && old(locks)[roomId] then old(locks)[roomId := false] else old(locks)
      ensures rooms == old(rooms)
      ensures old(Valid()) ==> Valid()
    {
      syncing := syncing - {roomId};
      if roomId in locks && locks[roomId] {
        locks := locks[roomId := false];
      }
    }
  }
}
