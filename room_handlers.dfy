/** socket/handlers/roomHandlers.js: create, join, start (with the question schedule),
    request-state and reconnect, each as one atomic step on the room store. */
module RoomHandlers {
  import opened Wrappers
  import opened RoomTypes
  import opened Strings
  import opened RoomUtils

  /** Pre-roll before question 0 and pause between questions, in ms (hard-coded in the handler). */
  const StartDelay: int := 3000
  const TransitionTime: int := 3000

  // ---------------------------------------------------------------- create

  /** handleCreateRoom. `newId` is the ObjectId the database assigns to the new document
      (always 24 hex digits, never in use); `payload` is `JSON.parse(response)`, absent
      when the text does not parse. */
  function CreateRoomSpec(rooms: map<string, Room>, newId: string, socketId: string, nickname: string,
                          payload: Option<RoomPayload>, now: int): (s: Step)
    requires IsValidRoomId(newId) && newId !in rooms
    ensures payload.None? ==> s == Step(Err(CreateRoomError), rooms)
    ensures payload.Some? ==> s.reply == Ok && s.rooms.Keys == rooms.Keys + {newId}
    ensures payload.Some? ==> forall k :: k in rooms ==> s.rooms[k] == rooms[k]
    ensures payload.Some? ==>
      var r := s.rooms[newId];
      && |r.players| == 1
      && r.players[0].socketID == socketId && r.players[0].nickname == Trim(nickname)
      && r.players[0].playerType == X && r.players[0].correctAnswer == 0 && r.players[0].points == 0
      && r.players[0].isConnected
      && r.questions == payload.value.questions && r.time == payload.value.time
      && r.isJoin && r.isCompleted == None && r.version == 0
      && r.createdAt == Some(now) && r.lastActivity == Some(now)
  {
    match payload
    case None => Step(Err(CreateRoomError), rooms)
    case Some(data) =>
      var creator := NewPlayer(socketId, nickname, X, true, Some(now));
      Step(Ok, rooms[newId := NewRoom(creator, data, Some(now))])
  }

  // ---------------------------------------------------------------- join

  /** handleJoinRoom: checks the id, the room, the lobby flag and the caller's socket in
      that order; on success appends a guest and then bumps the version. */
  function JoinSpec(rooms: map<string, Room>, roomId: string, socketId: string, nickname: string, now: int): (s: Step)
    ensures !IsValidRoomId(roomId) ==> s == Step(Err(InvalidRoomId), rooms)
    ensures IsValidRoomId(roomId) && roomId !in rooms ==> s == Step(Err(RoomNotFound), rooms)
    ensures s.reply.Err? ==> s.rooms == rooms
    ensures s.rooms.Keys == rooms.Keys
    ensures s.reply == Ok <==>
      IsValidRoomId(roomId) && roomId in rooms && rooms[roomId].isJoin
      && IndexOfSocket(rooms[roomId].players, socketId).None?
  {
    if !IsValidRoomId(roomId) then Step(Err(InvalidRoomId), rooms)
    else if roomId !in rooms then Step(Err(RoomNotFound), rooms)
    else
      var room := rooms[roomId];
      if !room.isJoin then Step(Err(GameAlreadyStarted), rooms)
      else if IndexOfSocket(room.players, socketId).Some? then Step(Err(DuplicatePlayer), rooms)
      else
        var guest := NewPlayer(socketId, nickname, O, true, Some(now));
        var joined := room.(players := room.players + [guest], lastActivity := Some(now));
        Step(Ok, UpdateRoomState(rooms[roomId := joined], roomId, now))
  }

  // ---------------------------------------------------------------- start

  /** Σ_{j<i} (time_j·1000 + TransitionTime): how long after question 0 starts question i starts. */
  function PrefixCost(qs: seq<Question>, i: nat): int
    requires i <= |qs|
  {
    if i == 0 then 0 else PrefixCost(qs, i - 1) + qs[i - 1].time * 1000 + TransitionTime
  }

  /** The absolute start time of every question when the game is started at `now`. */
  function Schedule(now: int, qs: seq<Question>): (starts: seq<int>)
    ensures |starts| == |qs|
    ensures forall i :: 0 <= i < |qs| ==> starts[i] == now + StartDelay + PrefixCost(qs, i)
  {
    seq(|qs|, i requires 0 <= i < |qs| => now + StartDelay + PrefixCost(qs, i))
  }

  /** The forEach loop of handleStartGame with its running `cumulativeTime`. */
  method ComputeSchedule(now: int, qs: seq<Question>) returns (starts: seq<int>)
    ensures starts == Schedule(now, qs)
  {
    starts := [];
    var cumulativeTime := StartDelay;
    var i := 0;
    while i < |qs|
      invariant 0 <= i <= |qs| && |starts| == i
      invariant cumulativeTime == StartDelay + PrefixCost(qs, i)
      invariant starts == Schedule(now, qs)[..i]
    {
      var questionTime := qs[i].time * 1000;
      starts := starts + [now + cumulativeTime];
      cumulativeTime := cumulativeTime + questionTime + TransitionTime;
      i := i + 1;
    }
    assert starts == Schedule(now, qs)[..|qs|];
  }

  /** The room once startGame has stamped it (before the version bump). */
  function Started(room: Room, now: int): (r: Room)
    requires |room.questions| > 0
    ensures r.players == room.players && r.questions == room.questions
    ensures !r.isJoin && r.currentQuestion == Some(0)
    ensures r.gameStartTime == Some(now + StartDelay)
    ensures r.questionStartTimes == Schedule(now, room.questions)
    ensures r.questionEndTime == Some(r.questionStartTimes[0] + room.questions[0].time * 1000)
    ensures r.isCompleted == room.isCompleted && r.isStaleGame == room.isStaleGame
    ensures r.completedAt == room.completedAt && r.version == room.version
  {
    var starts := Schedule(now, room.questions);
    room.(isJoin := false, gameStartTime := Some(now + StartDelay), questionStartTimes := starts,
          currentQuestion := Some(0),
          questionEndTime := Some(starts[0] + room.questions[0].time * 1000),
          lastActivity := Some(now))
  }

  /** handleStartGame. There is no lobby check: a running or completed room is started
      again. With no questions `room.questions[0]` throws before the save. */
  function StartSpec(rooms: map<string, Room>, roomId: string, now: int): (s: Step)
    ensures !IsValidRoomId(roomId) ==> s == Step(Err(InvalidRoomId), rooms)
    ensures IsValidRoomId(roomId) && roomId !in rooms ==> s == Step(Err(RoomNotFound), rooms)
    ensures s.reply.Err? ==> s.rooms == rooms
    ensures s.rooms.Keys == rooms.Keys
    ensures IsValidRoomId(roomId) && roomId in rooms && |rooms[roomId].questions| == 0 ==>
              s == Step(Err(StartGameError), rooms)
    ensures s.reply == Ok <==> IsValidRoomId(roomId) && roomId in rooms && |rooms[roomId].questions| > 0
    ensures s.reply == Ok ==> s.rooms == rooms[roomId := Bumped(Started(rooms[roomId], now), now)]
  {
    if !IsValidRoomId(roomId) then Step(Err(InvalidRoomId), rooms)
    else if roomId !in rooms then Step(Err(RoomNotFound), rooms)
    else if |rooms[roomId].questions| == 0 then Step(Err(StartGameError), rooms)
    else Step(Ok, UpdateRoomState(rooms[roomId := Started(rooms[roomId], now)], roomId, now))
  }

  // ---------------------------------------------------------------- request state

  /** handleRequestRoomState: the caller must already be a player of the room; its record
      is marked connected and active. No version bump. */
  function RequestStateSpec(rooms: map<string, Room>, roomId: string, socketId: string, now: int): (s: Step)
    ensures !IsValidRoomId(roomId) ==> s == Step(Err(InvalidRoomId), rooms)
    ensures IsValidRoomId(roomId) && roomId !in rooms ==> s == Step(Err(RoomNotFound), rooms)
    ensures s.reply.Err? ==> s.rooms == rooms
    ensures s.rooms.Keys == rooms.Keys
    ensures IsValidRoomId(roomId) && roomId in rooms && IndexOfSocket(rooms[roomId].players, socketId).None? ==>
              s == Step(Err(NotInRoom), rooms)
    ensures s.reply == Ok <==>
      IsValidRoomId(roomId) && roomId in rooms && IndexOfSocket(rooms[roomId].players, socketId).Some?
    ensures s.reply == Ok ==>
      var before := rooms[roomId];
      var i := IndexOfSocket(before.players, socketId).value;
      s.rooms == rooms[roomId := before.(players := before.players[i := before.players[i].(
                   isConnected := true, lastActivityTime := Some(now))])]
  {
    if !IsValidRoomId(roomId) then Step(Err(InvalidRoomId), rooms)
    else if roomId !in rooms then Step(Err(RoomNotFound), rooms)
    else
      var room := rooms[roomId];
      match IndexOfSocket(room.players, socketId)
      case None => Step(Err(NotInRoom), rooms)
      case Some(i) =>
        var p := room.players[i].(isConnected := true, lastActivityTime := Some(now));
        Step(Ok, rooms[roomId := room.(players := room.players[i := p])])
  }

  // ---------------------------------------------------------------- reconnect

  /** handleReconnectAttempt: the player whose socketID is the old id is rebound to the
      caller's socket and marked connected; `lastDisconnectTime` is left as it was. */
  function ReconnectSpec(rooms: map<string, Room>, roomId: string, previousId: string, socketId: string): (s: Step)
    ensures !IsValidRoomId(roomId) ==> s == Step(Err(InvalidRoomId), rooms)
    ensures IsValidRoomId(roomId) && roomId !in rooms ==> s == Step(Err(RoomNotFound), rooms)
    ensures s.reply.Err? ==> s.rooms == rooms
    ensures s.rooms.Keys == rooms.Keys
    ensures IsValidRoomId(roomId) && roomId in rooms && IndexOfSocket(rooms[roomId].players, previousId).None? ==>
              s == Step(Err(PlayerNotFound), rooms)
    ensures s.reply == Ok <==>
      IsValidRoomId(roomId) && roomId in rooms && IndexOfSocket(rooms[roomId].players, previousId).Some?
    ensures s.reply == Ok ==>
      var ps := rooms[roomId].players;
      var i := IndexOfSocket(ps, previousId).value;
      s.rooms == rooms[roomId := rooms[roomId].(players := ps[i := ps[i].(socketID := socketId, isConnected := true)])]
  {
    if !IsValidRoomId(roomId) then Step(Err(InvalidRoomId), rooms)
    else if roomId !in rooms then Step(Err(RoomNotFound), rooms)
    else
      var room := rooms[roomId];
      match IndexOfSocket(room.players, previousId)
      case None => Step(Err(PlayerNotFound), rooms)
      case Some(i) =>
        var p := room.players[i].(socketID := socketId, isConnected := true);
        Step(Ok, rooms[roomId := room.(players := room.players[i := p])])
  }

  // ---------------------------------------------------------------- properties

  /** A successful join appends exactly one fresh guest at the end and leaves every
      existing player, and every other room, as it was; the version goes up by one. */
  lemma JoinAppendsOneGuest(rooms: map<string, Room>, roomId: string, socketId: string, nickname: string, now: int)
    requires JoinSpec(rooms, roomId, socketId, nickname, now).reply == Ok
    ensures
      var before := rooms[roomId];
      var after := JoinSpec(rooms, roomId, socketId, nickname, now).rooms[roomId];
      && |after.players| == |before.players| + 1
      && after.players[..|before.players|] == before.players
      && after.players[|before.players|] == NewPlayer(socketId, nickname, O, true, Some(now))
      && after.version == before.version + 1
      && after.questions == before.questions && after.isJoin
    ensures forall k :: k in rooms && k != roomId ==> JoinSpec(rooms, roomId, socketId, nickname, now).rooms[k] == rooms[k]
  {
    var before := rooms[roomId];
    var after := JoinSpec(rooms, roomId, socketId, nickname, now).rooms[roomId];
    assert after.players == before.players + [NewPlayer(socketId, nickname, O, true, Some(now))];
  }

  /** Once the game has started nobody can join, and the roster is left as it was. */
  lemma JoinRejectedAfterStart(rooms: map<string, Room>, roomId: string, socketId: string, nickname: string, now: int)
    requires IsValidRoomId(roomId) && roomId in rooms && !rooms[roomId].isJoin
    ensures JoinSpec(rooms, roomId, socketId, nickname, now) == Step(Err(GameAlreadyStarted), rooms)
  {
  }

  /** A socket already bound to a player of an open room is turned away. */
  lemma JoinRejectsDuplicateSocket(rooms: map<string, Room>, roomId: string, socketId: string, nickname: string, now: int)
    requires IsValidRoomId(roomId) && roomId in rooms && rooms[roomId].isJoin
    requires exists j :: 0 <= j < |rooms[roomId].players| && rooms[roomId].players[j].socketID == socketId
    ensures JoinSpec(rooms, roomId, socketId, nickname, now) == Step(Err(DuplicatePlayer), rooms)
  {
  }

  /** Question i starts exactly time_i·1000 + 3000 ms after question i−1. */
  lemma {:induction false} ScheduleGaps(now: int, qs: seq<Question>, i: nat)
    requires 0 < i < |qs|
    ensures Schedule(now, qs)[i] == Schedule(now, qs)[i - 1] + qs[i - 1].time * 1000 + TransitionTime
  {
  }

  /** With non-negative durations the start times strictly increase. */
  lemma {:induction false} ScheduleStrictlyIncreasing(now: int, qs: seq<Question>)
    requires forall j :: 0 <= j < |qs| ==> qs[j].time >= 0
    ensures forall i, j :: 0 <= i < j < |qs| ==> Schedule(now, qs)[i] < Schedule(now, qs)[j]
  {
    forall i, j | 0 <= i < j < |qs|
      ensures Schedule(now, qs)[i] < Schedule(now, qs)[j]
    {
      PrefixCostIncreasing(qs, i, j);
    }
  }

  lemma {:induction false} PrefixCostIncreasing(qs: seq<Question>, i: nat, j: nat)
    requires i < j <= |qs|
    requires forall k :: 0 <= k < |qs| ==> qs[k].time >= 0
    ensures PrefixCost(qs, i) < PrefixCost(qs, j)
  {
    if j > i + 1 {
      PrefixCostIncreasing(qs, i, j - 1);
    }
  }

  /** Starting stamps question 0 at the game start time, ending one duration later. */
  lemma StartStampsFirstQuestion(rooms: map<string, Room>, roomId: string, now: int)
    requires StartSpec(rooms, roomId, now).reply == Ok
    ensures
      var r := StartSpec(rooms, roomId, now).rooms[roomId];
      && r.gameStartTime == Some(now + 3000)
      && r.questionStartTimes[0] == r.gameStartTime.value
      && r.questionEndTime == Some(now + 3000 + rooms[roomId].questions[0].time * 1000)
      && r.currentQuestion == Some(0) && !r.isJoin
      && r.version == rooms[roomId].version + 1
  {
  }

  /** startGame does not look at the lobby flag: on a room that is already running it
      recomputes the whole schedule from the new `now` and rewinds to question 0. */
  lemma RestartRewindsRunningRoom(rooms: map<string, Room>, roomId: string, now: int)
    requires IsValidRoomId(roomId) && roomId in rooms && |rooms[roomId].questions| > 0
    requires !rooms[roomId].isJoin && rooms[roomId].currentQuestion.Some?
    ensures StartSpec(rooms, roomId, now).reply == Ok
    ensures StartSpec(rooms, roomId, now).rooms[roomId].currentQuestion == Some(0)
    ensures StartSpec(rooms, roomId, now).rooms[roomId].questionStartTimes == Schedule(now, rooms[roomId].questions)
  {
  }

  /** Reconnection keeps the score and the log: only the socket id and the connection
      flag of the matched player change. */
  lemma ReconnectPreservesProgress(rooms: map<string, Room>, roomId: string, previousId: string, socketId: string)
    requires ReconnectSpec(rooms, roomId, previousId, socketId).reply == Ok
    ensures
      var before := rooms[roomId].players;
      var after := ReconnectSpec(rooms, roomId, previousId, socketId).rooms[roomId].players;
      var i := IndexOfSocket(before, previousId).value;
      && |after| == |before|
      && after[i].socketID == socketId && after[i].isConnected
      && after[i].points == before[i].points && after[i].correctAnswer == before[i].correctAnswer
      && after[i].result == before[i].result
      && after[i].lastDisconnectTime == before[i].lastDisconnectTime
      && (forall j :: 0 <= j < |before| && j != i ==> after[j] == before[j])
  {
  }

  /** Every handler of this file keeps every room well formed. */
  lemma JoinPreservesWellFormed(rooms: map<string, Room>, roomId: string, socketId: string, nickname: string, now: int)
    requires AllWellFormed(rooms)
    ensures AllWellFormed(JoinSpec(rooms, roomId, socketId, nickname, now).rooms)
  {
  }

  lemma StartPreservesWellFormed(rooms: map<string, Room>, roomId: string, now: int)
    requires AllWellFormed(rooms)
    ensures AllWellFormed(StartSpec(rooms, roomId, now).rooms)
  {
  }

  lemma RequestStatePreservesWellFormed(rooms: map<string, Room>, roomId: string, socketId: string, now: int)
    requires AllWellFormed(rooms)
    ensures AllWellFormed(RequestStateSpec(rooms, roomId, socketId, now).rooms)
  {
  }

  lemma ReconnectPreservesWellFormed(rooms: map<string, Room>, roomId: string, previousId: string, socketId: string)
    requires AllWellFormed(rooms)
    ensures AllWellFormed(ReconnectSpec(rooms, roomId, previousId, socketId).rooms)
  {
  }

  lemma CreatePreservesWellFormed(rooms: map<string, Room>, newId: string, socketId: string, nickname: string,
                                  payload: Option<RoomPayload>, now: int)
    requires IsValidRoomId(newId) && newId !in rooms
    requires AllWellFormed(rooms)
    ensures AllWellFormed(CreateRoomSpec(rooms, newId, socketId, nickname, payload, now).rooms)
  {
  }
}
