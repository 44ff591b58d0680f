/** socket/handlers/gameHandlers.js: answering (tap), advancing to the next question and
    disconnecting, each as one atomic step on the room store. */
module GameHandlers {
  import opened Wrappers
  import opened RoomTypes
  import opened RoomUtils
  import opened RoomHandlers

  // ---------------------------------------------------------------- tap

  /** The fields of a tap event. An empty string stands for a missing or falsy field;
      `questionIndex` is absent when the client left it undefined. `points` is the
      client's claim (whole numbers, so the handler's rounding changes nothing). */
  datatype TapRequest = TapRequest(
    roomId: string, playerId: string, requestId: string, questionIndex: Option<int>,
    correct: bool, points: int, question: string, answer: string, correctAnswer: string)

  predicate TapFieldsPresent(req: TapRequest) {
    req.roomId != "" && req.playerId != "" && req.requestId != "" && req.questionIndex.Some?
  }

  /** The player after a tap: answered, one more log entry, and the claimed points and one
      more correct answer only when the client says the answer was correct. */
  function Answered(p: Player, req: TapRequest, now: int): (q: Player)
    ensures q.hasAnswered
    ensures q.result == p.result + [AnswerEntry(req.question, req.answer, req.correct, req.correctAnswer)]
    ensures q.points == if req.correct then p.points + req.points else p.points
    ensures q.correctAnswer == if req.correct then p.correctAnswer + 1 else p.correctAnswer
    ensures q.socketID == p.socketID && q.nickname == p.nickname && q.playerType == p.playerType
    ensures q.isConnected == p.isConnected && q.lastDisconnectTime == p.lastDisconnectTime
  {
    var logged := p.(hasAnswered := true,
                     result := p.result + [AnswerEntry(req.question, req.answer, req.correct, req.correctAnswer)],
                     lastActivityTime := Some(now));
    if req.correct then logged.(points := p.points + req.points, correctAnswer := p.correctAnswer + 1)
    else logged
  }

  /** handleTap. No id format check and no request-id deduplication: an unknown room or
      player makes the handler throw before the save (TAP_ERROR). */
  function TapSpec(rooms: map<string, Room>, req: TapRequest, now: int): (s: Step)
    ensures !TapFieldsPresent(req) ==> s == Step(Err(ValidationError), rooms)
    ensures TapFieldsPresent(req) && req.roomId !in rooms ==> s == Step(Err(TapError), rooms)
    ensures TapFieldsPresent(req) && req.roomId in rooms && IndexOfSocket(rooms[req.roomId].players, req.playerId).None? ==>
              s == Step(Err(TapError), rooms)
    ensures s.reply.Err? ==> s.rooms == rooms
    ensures s.rooms.Keys == rooms.Keys
    ensures s.reply == Ok <==>
      TapFieldsPresent(req) && req.roomId in rooms && IndexOfSocket(rooms[req.roomId].players, req.playerId).Some?
  {
    if !TapFieldsPresent(req) then Step(Err(ValidationError), rooms)
    else if req.roomId !in rooms then Step(Err(TapError), rooms)
    else
      var room := rooms[req.roomId];
      match IndexOfSocket(room.players, req.playerId)
      case None => Step(Err(TapError), rooms)
      case Some(i) =>
        var tapped := room.(players := room.players[i := Answered(room.players[i], req, now)],
                            lastActivity := Some(now));
        Step(Ok, UpdateRoomState(rooms[req.roomId := tapped], req.roomId, now))
  }

  // ---------------------------------------------------------------- next question

  /** The room after an accepted advance from question c (before the version bump): one
      question further; past the last one the game is completed, otherwise the end time
      of the new current question is taken from the stored schedule. */
  function Advanced(room: Room, c: int, now: int): (r: Room)
    ensures r.currentQuestion == Some(c + 1) && r.players == room.players && r.questions == room.questions
    ensures r.questionStartTimes == room.questionStartTimes && r.version == room.version
    ensures c + 1 >= |room.questions| ==> r.isCompleted == Some(true) && r.completedAt == Some(now)
    ensures c + 1 < |room.questions| ==> r.isCompleted == room.isCompleted && r.completedAt == room.completedAt
    ensures 0 <= c + 1 < |room.questions| && c + 1 < |room.questionStartTimes| ==>
              r.questionEndTime == Some(room.questionStartTimes[c + 1] + room.questions[c + 1].time * 1000)
    ensures r.isStaleGame == room.isStaleGame && r.gameStartTime == room.gameStartTime
  {
    var moved := room.(currentQuestion := Some(c + 1), lastActivity := Some(now));
    if c + 1 >= |room.questions| then moved.(isCompleted := Some(true), completedAt := Some(now))
    else if 0 <= c + 1 < |room.questionStartTimes| then
      moved.(questionEndTime := Some(room.questionStartTimes[c + 1] + room.questions[c + 1].time * 1000))
    else
      // a missing start time gives NaN in the handler; never reached from a well-formed room
      moved.(questionEndTime := None)
  }

  /** `questionIndex < 0 || questionIndex >= questions.length || questionIndex !== currentQuestion`
      where either side may be undefined; undefined compares false with numbers and
      `undefined !== undefined` is false. */
  predicate IndexRejected(room: Room, questionIndex: Option<int>) {
    match (questionIndex, room.currentQuestion)
    case (Some(i), Some(c)) => i < 0 || i >= |room.questions| || i != c
    case (None, None) => false
    case (_, _) => true
  }

  /** handleNextQuestion. */
  function NextQuestionSpec(rooms: map<string, Room>, roomId: string, questionIndex: Option<int>, now: int): (s: Step)
    ensures !IsValidRoomId(roomId) ==> s == Step(Err(InvalidRoomId), rooms)
    ensures IsValidRoomId(roomId) && roomId !in rooms ==> s == Step(Err(RoomNotFound), rooms)
    ensures s.reply.Err? ==> s.rooms == rooms
    ensures s.rooms.Keys == rooms.Keys
    ensures IsValidRoomId(roomId) && roomId in rooms && IndexRejected(rooms[roomId], questionIndex) ==>
              s == Step(Err(InvalidQuestionIndex), rooms)
    ensures s.reply == Ok <==>
      && IsValidRoomId(roomId) && roomId in rooms
      && questionIndex.Some? && rooms[roomId].currentQuestion == questionIndex
      && 0 <= questionIndex.value < |rooms[roomId].questions|
    ensures s.reply == Ok ==>
      s.rooms == rooms[roomId := Bumped(Advanced(rooms[roomId], questionIndex.value, now), now)]
  {
    if !IsValidRoomId(roomId) then Step(Err(InvalidRoomId), rooms)
    else if roomId !in rooms then Step(Err(RoomNotFound), rooms)
    else
      var room := rooms[roomId];
      if IndexRejected(room, questionIndex) then Step(Err(InvalidQuestionIndex), rooms)
      else if questionIndex.None? then
        // both undefined: `currentQuestion += 1` yields NaN and `questions[NaN].time` throws
        Step(Err(NextQuestionError), rooms)
      else
        Step(Ok, UpdateRoomState(rooms[roomId := Advanced(room, questionIndex.value, now)], roomId, now))
  }

  // ---------------------------------------------------------------- disconnect

  /** One room after its first player on the socket is marked disconnected, then bumped;
      a room without that socket is untouched. */
  function DisconnectRoom(room: Room, socketId: string, now: int): (r: Room)
    ensures |r.players| == |room.players|
    ensures IndexOfSocket(room.players, socketId).None? ==> r == room
  {
    match IndexOfSocket(room.players, socketId)
    case None => room
    case Some(i) =>
      var p := room.players[i].(isConnected := false, lastDisconnectTime := Some(now));
      Bumped(room.(players := room.players[i := p]), now)
  }

  /** handleDisconnect over every room holding the socket. */
  function DisconnectSpec(rooms: map<string, Room>, socketId: string, now: int): (m: map<string, Room>)
    ensures m.Keys == rooms.Keys
    ensures forall k :: k in rooms ==> m[k] == DisconnectRoom(rooms[k], socketId, now)
  {
    map k | k in rooms :: DisconnectRoom(rooms[k], socketId, now)
  }

  // ---------------------------------------------------------------- properties

  /** An accepted tap touches one player of one room: it is marked answered and its log
      grows by exactly the submitted entry; points and the correct count move only for a
      correct answer. Every other player and room is unchanged, and the version goes up by one. */
  lemma TapRecordsOneAnswer(rooms: map<string, Room>, req: TapRequest, now: int)
    requires TapSpec(rooms, req, now).reply == Ok
    ensures
      var before := rooms[req.roomId];
      var after := TapSpec(rooms, req, now).rooms[req.roomId];
      var i := IndexOfSocket(before.players, req.playerId).value;
      && |after.players| == |before.players|
      && after.players[i].hasAnswered
      && after.players[i].result == before.players[i].result + [AnswerEntry(req.question, req.answer, req.correct, req.correctAnswer)]
      && (req.correct ==>
            after.players[i].points == before.players[i].points + req.points &&
            after.players[i].correctAnswer == before.players[i].correctAnswer + 1)
      && (!req.correct ==>
            after.players[i].points == before.players[i].points &&
            after.players[i].correctAnswer == before.players[i].correctAnswer)
      && (forall j :: 0 <= j < |before.players| && j != i ==> after.players[j] == before.players[j])
      && after.version == before.version + 1
      && after.questions == before.questions && after.currentQuestion == before.currentQuestion
    ensures forall k :: k in rooms && k != req.roomId ==> TapSpec(rooms, req, now).rooms[k] == rooms[k]
  {
  }

  /** `questionIndex` 0 is present, not missing. */
  lemma TapAcceptsQuestionZero(rooms: map<string, Room>, req: TapRequest, now: int)
    requires req.roomId != "" && req.playerId != "" && req.requestId != "" && req.questionIndex == Some(0)
    requires req.roomId in rooms
    requires exists j :: 0 <= j < |rooms[req.roomId].players| && rooms[req.roomId].players[j].socketID == req.playerId
    ensures TapSpec(rooms, req, now).reply == Ok
  {
  }

  /** The same tap delivered twice is applied twice: two log entries, and for a correct
      answer the points are added twice. */
  lemma {:induction false} TapTwiceScoresTwice(rooms: map<string, Room>, req: TapRequest, now1: int, now2: int)
    requires TapSpec(rooms, req, now1).reply == Ok
    ensures
      var once := TapSpec(rooms, req, now1);
      var twice := TapSpec(once.rooms, req, now2);
      var i := IndexOfSocket(rooms[req.roomId].players, req.playerId).value;
      var e := AnswerEntry(req.question, req.answer, req.correct, req.correctAnswer);
      && twice.reply == Ok
      && twice.rooms[req.roomId].players[i].result == rooms[req.roomId].players[i].result + [e, e]
      && twice.rooms[req.roomId].players[i].points
         == rooms[req.roomId].players[i].points + (if req.correct then 2 * req.points else 0)
      && twice.rooms[req.roomId].version == rooms[req.roomId].version + 2
  {
    var once := TapSpec(rooms, req, now1);
    var before := rooms[req.roomId].players;
    var i := IndexOfSocket(before, req.playerId).value;
    var mid := once.rooms[req.roomId].players;
    TapRecordsOneAnswer(rooms, req, now1);
    // the socket ids are untouched, so the same player is found again
    assert forall j :: 0 <= j < |mid| ==> mid[j].socketID == before[j].socketID;
    assert IndexOfSocket(mid, req.playerId) == Some(i) by {
      IndexOfSocketSameIds(before, mid, req.playerId);
    }
    TapRecordsOneAnswer(once.rooms, req, now2);
    var e := AnswerEntry(req.question, req.answer, req.correct, req.correctAnswer);
    assert before[i].result + [e] + [e] == before[i].result + [e, e];
  }

  /** The first-match search depends only on the socket ids. */
  lemma {:induction false} IndexOfSocketSameIds(a: seq<Player>, b: seq<Player>, s: string)
    requires |a| == |b| && forall j :: 0 <= j < |a| ==> a[j].socketID == b[j].socketID
    ensures IndexOfSocket(a, s) == IndexOfSocket(b, s)
  {
    if |a| > 0 && a[0].socketID != s {
      IndexOfSocketSameIds(a[1..], b[1..], s);
    }
  }

  /** A wrong, out-of-range or stale index never moves the question pointer. */
  lemma NextRejectsWrongIndex(rooms: map<string, Room>, roomId: string, i: int, now: int)
    requires IsValidRoomId(roomId) && roomId in rooms
    requires rooms[roomId].currentQuestion != Some(i) || i < 0 || i >= |rooms[roomId].questions|
    ensures NextQuestionSpec(rooms, roomId, Some(i), now) == Step(Err(InvalidQuestionIndex), rooms)
  {
  }

  /** An accepted advance moves the pointer by exactly one; reaching the end completes
      the game, otherwise the new question's end time comes from the schedule. */
  lemma NextAdvancesByOne(rooms: map<string, Room>, roomId: string, i: int, now: int)
    requires roomId !in rooms || WellFormed(rooms[roomId])
    requires NextQuestionSpec(rooms, roomId, Some(i), now).reply == Ok
    ensures
      var before := rooms[roomId];
      var after := NextQuestionSpec(rooms, roomId, Some(i), now).rooms[roomId];
      && after.currentQuestion == Some(i + 1)
      && (i + 1 == |before.questions| ==> after.isCompleted == Some(true) && after.completedAt == Some(now))
      && (i + 1 < |before.questions| ==>
            after.questionEndTime == Some(before.questionStartTimes[i + 1] + before.questions[i + 1].time * 1000))
      && after.players == before.players
      && after.version == before.version + 1
  {
  }

  /** A room completed by advancing past its last question accepts no further advance. */
  lemma CompletedByAdvanceIsFinal(rooms: map<string, Room>, roomId: string, questionIndex: Option<int>, now: int)
    requires roomId in rooms && WellFormed(rooms[roomId])
    requires rooms[roomId].currentQuestion == Some(|rooms[roomId].questions|)
    ensures NextQuestionSpec(rooms, roomId, questionIndex, now).reply.Err?
    ensures NextQuestionSpec(rooms, roomId, questionIndex, now).rooms == rooms
  {
  }

  /** The handler never looks at `isCompleted`: a room ended by the stale sweep before its
      last question still accepts `next_question` for its current index. */
  lemma CompletedRoomCanStillAdvance(rooms: map<string, Room>, roomId: string, now: int)
    requires IsValidRoomId(roomId) && roomId in rooms
    requires rooms[roomId].isCompleted == Some(true)
    requires rooms[roomId].currentQuestion.Some? && 0 <= rooms[roomId].currentQuestion.value < |rooms[roomId].questions|
    ensures NextQuestionSpec(rooms, roomId, rooms[roomId].currentQuestion, now).reply == Ok
  {
  }

  /** next_question before any start with no index: the check passes and the handler then throws. */
  lemma UnstartedUndefinedIndexThrows(rooms: map<string, Room>, roomId: string, now: int)
    requires IsValidRoomId(roomId) && roomId in rooms && rooms[roomId].currentQuestion == None
    ensures NextQuestionSpec(rooms, roomId, None, now) == Step(Err(NextQuestionError), rooms)
  {
  }

  /** Disconnecting never removes anybody: each room keeps its roster, and only the first
      player on the socket loses its connection, stamped with `now`. */
  lemma DisconnectKeepsRoster(rooms: map<string, Room>, socketId: string, now: int, k: string)
    requires k in rooms
    ensures
      var before := rooms[k].players;
      var after := DisconnectSpec(rooms, socketId, now)[k].players;
      && |after| == |before|
      && (IndexOfSocket(before, socketId).None? ==> DisconnectSpec(rooms, socketId, now)[k] == rooms[k])
      && (IndexOfSocket(before, socketId).Some? ==>
            var i := IndexOfSocket(before, socketId).value;
            && !after[i].isConnected && after[i].lastDisconnectTime == Some(now)
            && after[i].points == before[i].points && after[i].result == before[i].result
            && after[i].correctAnswer == before[i].correctAnswer
            && (forall j :: 0 <= j < |before| && j != i ==> after[j] == before[j])
            && DisconnectSpec(rooms, socketId, now)[k].version == rooms[k].version + 1)
  {
  }

  /** Disconnect followed by reconnect under the old socket id gives the player back with
      the same points, correct count and answer log, now on the new socket. */
  lemma DisconnectThenReconnectPreservesScore(rooms: map<string, Room>, roomId: string, oldSocket: string,
                                              newSocket: string, now: int)
    requires IsValidRoomId(roomId) && roomId in rooms
    requires IndexOfSocket(rooms[roomId].players, oldSocket).Some?
    ensures
      var down := DisconnectSpec(rooms, oldSocket, now);
      var back := ReconnectSpec(down, roomId, oldSocket, newSocket);
      var i := IndexOfSocket(rooms[roomId].players, oldSocket).value;
      && back.reply == Ok
      && |back.rooms[roomId].players| == |rooms[roomId].players|
      && back.rooms[roomId].players[i].socketID == newSocket
      && back.rooms[roomId].players[i].isConnected
      && back.rooms[roomId].players[i].points == rooms[roomId].players[i].points
      && back.rooms[roomId].players[i].correctAnswer == rooms[roomId].players[i].correctAnswer
      && back.rooms[roomId].players[i].result == rooms[roomId].players[i].result
  {
    var before := rooms[roomId].players;
    var down := DisconnectSpec(rooms, oldSocket, now);
    var mid := down[roomId].players;
    DisconnectKeepsRoster(rooms, oldSocket, now, roomId);
    IndexOfSocketSameIds(before, mid, oldSocket);
  }

  lemma TapPreservesWellFormed(rooms: map<string, Room>, req: TapRequest, now: int)
    requires AllWellFormed(rooms)
    ensures AllWellFormed(TapSpec(rooms, req, now).rooms)
  {
  }

  lemma NextQuestionPreservesWellFormed(rooms: map<string, Room>, roomId: string, questionIndex: Option<int>, now: int)
    requires AllWellFormed(rooms)
    ensures AllWellFormed(NextQuestionSpec(rooms, roomId, questionIndex, now).rooms)
  {
  }

  lemma DisconnectPreservesWellFormed(rooms: map<string, Room>, socketId: string, now: int)
    requires AllWellFormed(rooms)
    ensures AllWellFormed(DisconnectSpec(rooms, socketId, now))
  {
  }
}
