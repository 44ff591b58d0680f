/** socket.js: the older handler set (the one index.js wires). It shares the room
    documents but keeps none of the newer bookkeeping: no version, no timestamps, no
    schedule, no lock, and failures after the id check are only logged. */
module LegacySocket {
  import opened Wrappers
  import opened RoomTypes
  import opened Strings
  import opened RoomUtils

  /** What a legacy handler does towards its caller. */
  datatype LegacyReply =
    | Done                                // the success events were emitted
    | ErrorOccured(message: string)       // `errorOccured` with a text message
    | Logged                              // an exception was caught and only logged
    | EndGameSent(targets: seq<string>)   // `endGame` sent to these socket ids

  datatype LegacyStep = LegacyStep(reply: LegacyReply, rooms: map<string, Room>)

  const InvalidIdMessage: string := "please enter a valid code room ID"
  const DuplicateMessage: string := "Player with this socketID already exists in the room"
  const StartedMessage: string := "Игра уже началось, вы не можете присоединиться"

  /** A legacy player: `correctAnswer: "0"` is cast to the number 0 by the schema, points
      default to 0; there is no connection flag or activity time in this schema. */
  function LegacyPlayer(socketId: string, nickname: string, kind: PlayerType): (p: Player)
    ensures p.socketID == socketId && p.nickname == Trim(nickname) && p.playerType == kind
    ensures p.points == 0 && p.correctAnswer == 0 && !p.hasAnswered && p.result == []
    ensures !p.isConnected && p.lastActivityTime == None
  {
    NewPlayer(socketId, nickname, kind, false, None)
  }

  /** createRoom. `payload` is absent when `JSON.parse` throws. */
  function LegacyCreateSpec(rooms: map<string, Room>, newId: string, socketId: string, nickname: string,
                            payload: Option<RoomPayload>): (s: LegacyStep)
    requires IsValidRoomId(newId) && newId !in rooms
    ensures payload.None? ==> s == LegacyStep(Logged, rooms)
    ensures payload.Some? ==> s.reply == Done && s.rooms.Keys == rooms.Keys + {newId}
    ensures payload.Some? ==> forall k :: k in rooms ==> s.rooms[k] == rooms[k]
    ensures payload.Some? ==>
      var r := s.rooms[newId];
      && |r.players| == 1 && r.players[0].playerType == X && r.players[0].socketID == socketId
      && r.players[0].correctAnswer == 0 && r.players[0].points == 0
      && r.questions == payload.value.questions && r.time == payload.value.time
      && r.isJoin && r.version == 0 && r.createdAt == None && r.lastActivity == None
  {
    match payload
    case None => LegacyStep(Logged, rooms)
    case Some(data) => LegacyStep(Done, rooms[newId := NewRoom(LegacyPlayer(socketId, nickname, X), data, None)])
  }

  /** joinRoom. A missing room makes `room.isJoin` throw. */
  function LegacyJoinSpec(rooms: map<string, Room>, roomId: string, socketId: string, nickname: string): (s: LegacyStep)
    ensures !IsValidRoomId(roomId) ==> s == LegacyStep(ErrorOccured(InvalidIdMessage), rooms)
    ensures IsValidRoomId(roomId) && roomId !in rooms ==> s == LegacyStep(Logged, rooms)
    ensures s.reply != Done ==> s.rooms == rooms
    ensures s.rooms.Keys == rooms.Keys
    ensures s.reply == Done <==>
      IsValidRoomId(roomId) && roomId in rooms && rooms[roomId].isJoin
      && IndexOfSocket(rooms[roomId].players, socketId).None?
  {
    if !IsValidRoomId(roomId) then LegacyStep(ErrorOccured(InvalidIdMessage), rooms)
    else if roomId !in rooms then LegacyStep(Logged, rooms)
    else
      var room := rooms[roomId];
      if room.isJoin then
        if IndexOfSocket(room.players, socketId).Some? then LegacyStep(ErrorOccured(DuplicateMessage), rooms)
        else LegacyStep(Done, rooms[roomId := room.(players := room.players + [LegacyPlayer(socketId, nickname, O)])])
      else LegacyStep(ErrorOccured(StartedMessage), rooms)
  }

  /** startGame: closes the lobby and nothing else. */
  function LegacyStartSpec(rooms: map<string, Room>, roomId: string): (s: LegacyStep)
    ensures !IsValidRoomId(roomId) ==> s == LegacyStep(ErrorOccured(InvalidIdMessage), rooms)
    ensures s.rooms.Keys == rooms.Keys
    ensures s.reply != Done ==> s.rooms == rooms
    ensures s.reply == Done <==> IsValidRoomId(roomId) && roomId in rooms
  {
    if !IsValidRoomId(roomId) then LegacyStep(ErrorOccured(InvalidIdMessage), rooms)
    else if roomId !in rooms then LegacyStep(Logged, rooms)
    else LegacyStep(Done, rooms[roomId := rooms[roomId].(isJoin := false)])
  }

  /** The fields of a legacy tap: no request id and no question index. */
  datatype LegacyTap = LegacyTap(roomId: string, playerId: string, correct: bool, points: int,
                                 question: string, answer: string, correctAnswer: string)

  /** tap: no validation; a malformed id (the ObjectId cast fails), a missing room or a
      missing player throws before the save. Points are added as sent, without rounding. */
  function LegacyTapSpec(rooms: map<string, Room>, t: LegacyTap): (s: LegacyStep)
    ensures s.rooms.Keys == rooms.Keys
    ensures s.reply != Done ==> s == LegacyStep(Logged, rooms)
    ensures s.reply == Done <==>
      IsValidRoomId(t.roomId) && t.roomId in rooms && IndexOfSocket(rooms[t.roomId].players, t.playerId).Some?
  {
    if !IsValidRoomId(t.roomId) || t.roomId !in rooms then LegacyStep(Logged, rooms)
    else
      var room := rooms[t.roomId];
      match IndexOfSocket(room.players, t.playerId)
      case None => LegacyStep(Logged, rooms)
      case Some(i) =>
        var p := room.players[i];
        var logged := p.(hasAnswered := true,
                         result := p.result + [AnswerEntry(t.question, t.answer, t.correct, t.correctAnswer)]);
        var scored := if t.correct then logged.(points := p.points + t.points, correctAnswer := p.correctAnswer + 1)
                      else logged;
        LegacyStep(Done, rooms[t.roomId := room.(players := room.players[i := scored])])
  }

  /** hasAnswers: saves the room unchanged and rebroadcasts it. */
  function LegacyHasAnswersSpec(rooms: map<string, Room>, roomId: string): (s: LegacyStep)
    ensures s.rooms == rooms
    ensures s.reply == Done <==> IsValidRoomId(roomId) && roomId in rooms
  {
    if IsValidRoomId(roomId) && roomId in rooms then LegacyStep(Done, rooms) else LegacyStep(Logged, rooms)
  }

  /** `players.find(p => p.playerType === "X")`. */
  function FirstHost(ps: seq<Player>): (r: Option<nat>)
    ensures r.Some? ==> r.value < |ps| && ps[r.value].playerType == X
    ensures r.Some? ==> forall j :: 0 <= j < r.value ==> ps[j].playerType != X
    ensures r.None? <==> forall j :: 0 <= j < |ps| ==> ps[j].playerType != X
  {
    if |ps| == 0 then None
    else if ps[0].playerType == X then Some(0)
    else match FirstHost(ps[1..])
      case None => None
      case Some(i) => Some(i + 1)
  }

  /** end: no mutation; `endGame` goes to the caller and to the first host. Without a host
      `player.socketID` throws after the room broadcast and before either `endGame`. */
  function LegacyEndSpec(rooms: map<string, Room>, roomId: string, callerSocket: string): (s: LegacyStep)
    ensures s.rooms == rooms
    ensures s.reply.EndGameSent? <==> IsValidRoomId(roomId) && roomId in rooms && FirstHost(rooms[roomId].players).Some?
    ensures !s.reply.EndGameSent? ==> s.reply == Logged
  {
    if !IsValidRoomId(roomId) || roomId !in rooms then LegacyStep(Logged, rooms)
    else match FirstHost(rooms[roomId].players)
      case None => LegacyStep(Logged, rooms)
      case Some(h) => LegacyStep(EndGameSent([callerSocket, rooms[roomId].players[h].socketID]), rooms)
  }

  // ---------------------------------------------------------------- properties

  /** A legacy join appends one guest of type O with no points at the end and changes no
      existing player and no other field of the room. */
  lemma LegacyJoinAppendsOneGuest(rooms: map<string, Room>, roomId: string, socketId: string, nickname: string)
    requires LegacyJoinSpec(rooms, roomId, socketId, nickname).reply == Done
    ensures
      var before := rooms[roomId];
      var after := LegacyJoinSpec(rooms, roomId, socketId, nickname).rooms[roomId];
      && after.players[..|before.players|] == before.players
      && |after.players| == |before.players| + 1
      && after.players[|before.players|].playerType == O
      && after.players[|before.players|].points == 0
      && after.players[|before.players|].socketID == socketId
      && after.(players := before.players) == before
  {
    var before := rooms[roomId];
    var after := LegacyJoinSpec(rooms, roomId, socketId, nickname).rooms[roomId];
    assert after.players == before.players + [LegacyPlayer(socketId, nickname, O)];
  }

  /** Legacy start computes no schedule: the question pointer, start times and version are
      those of the lobby. */
  lemma LegacyStartOnlyClosesLobby(rooms: map<string, Room>, roomId: string)
    requires LegacyStartSpec(rooms, roomId).reply == Done
    ensures
      var after := LegacyStartSpec(rooms, roomId).rooms[roomId];
      && !after.isJoin && after.(isJoin := rooms[roomId].isJoin) == rooms[roomId]
  {
  }

  /** A legacy tap adds the claimed points only for a correct answer and always logs the answer. */
  lemma LegacyTapScoresOnlyCorrect(rooms: map<string, Room>, t: LegacyTap)
    requires LegacyTapSpec(rooms, t).reply == Done
    ensures
      var i := IndexOfSocket(rooms[t.roomId].players, t.playerId).value;
      var before := rooms[t.roomId].players[i];
      var after := LegacyTapSpec(rooms, t).rooms[t.roomId].players[i];
      && after.hasAnswered
      && after.result == before.result + [AnswerEntry(t.question, t.answer, t.correct, t.correctAnswer)]
      && after.points == before.points + (if t.correct then t.points else 0)
      && after.correctAnswer == before.correctAnswer + (if t.correct then 1 else 0)
      && |LegacyTapSpec(rooms, t).rooms[t.roomId].players| == |rooms[t.roomId].players|
      && LegacyTapSpec(rooms, t).rooms[t.roomId].version == rooms[t.roomId].version
  {
  }

  /** After a legacy start no one can join, whatever the socket. */
  lemma LegacyJoinClosedAfterStart(rooms: map<string, Room>, roomId: string, socketId: string, nickname: string)
    requires LegacyStartSpec(rooms, roomId).reply == Done
    ensures LegacyJoinSpec(LegacyStartSpec(rooms, roomId).rooms, roomId, socketId, nickname).reply
            == ErrorOccured(StartedMessage)
  {
  }

  /** `end` on a room created by the legacy handlers reaches the caller and the creator. */
  lemma LegacyEndReachesCreator(rooms: map<string, Room>, newId: string, creator: string, nickname: string,
                                payload: RoomPayload, caller: string)
    requires IsValidRoomId(newId) && newId !in rooms
    ensures
      var created := LegacyCreateSpec(rooms, newId, creator, nickname, Some(payload)).rooms;
      LegacyEndSpec(created, newId, caller).reply == EndGameSent([caller, creator])
  {
  }

  // ---------------------------------------------------------------- the store

  class LegacyServer {
    var rooms: map<string, Room>

    constructor()
      ensures rooms == map[]
    {
      rooms := map[];
    }

    method CreateRoom(newId: string, socketId: string, nickname: string, payload: Option<RoomPayload>)
      returns (reply: LegacyReply)
      requires IsValidRoomId(newId) && newId !in rooms
      modifies this
      ensures LegacyStep(reply, rooms) == LegacyCreateSpec(old(rooms), newId, socketId, nickname, payload)
    {
      if payload.None? {
        reply := Logged;
      } else {
        var room := NewRoom(LegacyPlayer(socketId, nickname, X), payload.value, None);
        rooms := rooms[newId := room];
        reply := Done;
      }
    }

    method JoinRoom(roomId: string, socketId: string, nickname: string) returns (reply: LegacyReply)
      modifies this
      ensures LegacyStep(reply, rooms) == LegacyJoinSpec(old(rooms), roomId, socketId, nickname)
    {
      if !IsValidRoomId(roomId) {
        reply := ErrorOccured(InvalidIdMessage);
        return;
      }
      if roomId !in rooms {
        reply := Logged;
        return;
      }
      var room := rooms[roomId];
      if room.isJoin {
        if IndexOfSocket(room.players, socketId).Some? {
          reply := ErrorOccured(DuplicateMessage);
          return;
        }
        room := room.(players := room.players + [LegacyPlayer(socketId, nickname, O)]);
        rooms := rooms[roomId := room];
        reply := Done;
      } else {
        reply := ErrorOccured(StartedMessage);
      }
    }

    method StartGame(roomId: string) returns (reply: LegacyReply)
      modifies this
      ensures LegacyStep(reply, rooms) == LegacyStartSpec(old(rooms), roomId)
    {
      if !IsValidRoomId(roomId) {
        reply := ErrorOccured(InvalidIdMessage);
      } else if roomId !in rooms {
        reply := Logged;
      } else {
        rooms := rooms[roomId := rooms[roomId].(isJoin := false)];
        reply := Done;
      }
    }

    method Tap(t: LegacyTap) returns (reply: LegacyReply)
      modifies this
      ensures LegacyStep(reply, rooms) == LegacyTapSpec(old(rooms), t)
    {
      if !IsValidRoomId(t.roomId) || t.roomId !in rooms {
        reply := Logged;
        return;
      }
      var room := rooms[t.roomId];
      var found := IndexOfSocket(room.players, t.playerId);
      if found.None? {
        reply := Logged;
        return;
      }
      var i := found.value;
      var player := room.players[i];
      player := player.(hasAnswered := true);
      player := player.(result := player.result + [AnswerEntry(t.question, t.answer, t.correct, t.correctAnswer)]);
      if t.correct {
        player := player.(points := player.points + t.points);
        player := player.(correctAnswer := player.correctAnswer + 1);
      }
      rooms := rooms[t.roomId := room.(players := room.players[i := player])];
      reply := Done;
    }

    method HasAnswers(roomId: string) returns (reply: LegacyReply)
      ensures LegacyStep(reply, rooms) == LegacyHasAnswersSpec(rooms, roomId)
    {
      reply := if IsValidRoomId(roomId) && roomId in rooms then Done else Logged;
    }

    method End(roomId: string, callerSocket: string) returns (reply: LegacyReply)
      ensures LegacyStep(reply, rooms) == LegacyEndSpec(rooms, roomId, callerSocket)
    {
      if !IsValidRoomId(roomId) || roomId !in rooms {
        reply := Logged;
        return;
      }
      var host := FirstHost(rooms[roomId].players);
      if host.None? {
        reply := Logged;
      } else {
        reply := EndGameSent([callerSocket, rooms[roomId].players[host.value].socketID]);
      }
    }
  }
}
