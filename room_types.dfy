/** The quiz room as stored (models/room.js, models/player.js) and the error
    taxonomy of the socket handlers (socket/constants/events.js). */
module RoomTypes {
  import opened Wrappers
  import opened Strings

  datatype PlayerType = X | O

  /** One entry of a player's `result` log, exactly as the client sent it. */
  datatype AnswerEntry = AnswerEntry(question: string, answer: string, correct: bool, correctAnswer: string)

  /** A player embedded in a room. `socketID` is the player's identity inside the room;
      `lastActivityTime` is absent for players created by the legacy handlers. */
  datatype Player = Player(
    socketID: string,
    nickname: string,
    playerType: PlayerType,
    points: int,
    correctAnswer: int,
    hasAnswered: bool,
    result: seq<AnswerEntry>,
    isConnected: bool,
    lastDisconnectTime: Option<int>,
    lastActivityTime: Option<int>)

  /** A question; only its duration matters to the room logic (`parseInt(q.time)`, seconds). */
  datatype Question = Question(time: int)

  /** A room. Timestamps are epoch milliseconds. `currentQuestion`, `gameStartTime` and
      `questionEndTime` stay absent until the game is started; `version` absent counts as 0.
      `isCompleted` has no schema default and no handler ever writes `false`: it is absent
      until the last question is passed or the stale sweep ends the room. */
  datatype Room = Room(
    players: seq<Player>,
    questions: seq<Question>,
    time: string,
    isJoin: bool,
    isCompleted: Option<bool>,
    isStaleGame: bool,
    currentQuestion: Option<int>,
    gameStartTime: Option<int>,
    questionStartTimes: seq<int>,
    questionEndTime: Option<int>,
    version: nat,
    createdAt: Option<int>,
    lastActivity: Option<int>,
    completedAt: Option<int>)

  /** The decoded `response` payload of a createRoom event. */
  datatype RoomPayload = RoomPayload(questions: seq<Question>, time: string)

  /** A player with the schema defaults: no points, no correct answers, not answered, empty
      log. The nickname path is declared with `trim: true`, so it is stored trimmed. */
  function NewPlayer(socketId: string, nickname: string, kind: PlayerType, connected: bool, activity: Option<int>): (p: Player)
    ensures p.socketID == socketId && p.nickname == Trim(nickname) && p.playerType == kind
    ensures p.points == 0 && p.correctAnswer == 0 && !p.hasAnswered && p.result == []
    ensures p.isConnected == connected && p.lastDisconnectTime == None && p.lastActivityTime == activity
  {
    Player(socketId, Trim(nickname), kind, 0, 0, false, [], connected, None, activity)
  }

  /** A fresh room with the schema defaults: open for joining, not started, and with no
      `isCompleted` field at all. */
  function NewRoom(creator: Player, payload: RoomPayload, created: Option<int>): (r: Room)
    ensures r.players == [creator] && r.questions == payload.questions && r.time == payload.time
    ensures r.isJoin && r.isCompleted == None && !r.isStaleGame
    ensures r.currentQuestion == None && r.questionStartTimes == [] && r.version == 0
    ensures r.createdAt == created && r.lastActivity == created && r.completedAt == None
  {
    Room([creator], payload.questions, payload.time, true, None, false,
         None, None, [], None, 0, created, created, None)
  }

  /** Error codes sent with `error_occurred`. */
  datatype ErrorCode =
    | InvalidRoomId | RoomNotFound | PlayerNotFound
    | CreateRoomError | JoinRoomError | StartGameError | ReconnectError | RequestStateError
    | ValidationError | DuplicatePlayer | GameAlreadyStarted
    | NotInRoom | TapError | InvalidQuestionIndex | NextQuestionError

  /** The `errorCode` string put on the wire. NOT_IN_ROOM is looked up in the code table
      but the table has no such entry, so that error goes out with no code at all. */
  function WireCode(e: ErrorCode): (w: Option<string>)
    ensures w.None? <==> e == NotInRoom
  {
    match e
    case InvalidRoomId => Some("INVALID_ROOM_ID")
    case RoomNotFound => Some("ROOM_NOT_FOUND")
    case PlayerNotFound => Some("PLAYER_NOT_FOUND")
    case CreateRoomError => Some("CREATE_ROOM_ERROR")
    case JoinRoomError => Some("JOIN_ROOM_ERROR")
    case StartGameError => Some("START_GAME_ERROR")
    case ReconnectError => Some("RECONNECT_ERROR")
    case RequestStateError => Some("REQUEST_STATE_ERROR")
    case ValidationError => Some("VALIDATION_ERROR")
    case DuplicatePlayer => Some("DUPLICATE_PLAYER")
    case GameAlreadyStarted => Some("GAME_ALREADY_STARTED")
    case NotInRoom => None
    case TapError => Some("TAP_ERROR")
    case InvalidQuestionIndex => Some("INVALID_QUESTION_INDEX")
    case NextQuestionError => Some("NEXT_QUESTION_ERROR")
  }

  /** What a handler answers its caller: success, or an error event with a code. */
  datatype Reply = Ok | Err(code: ErrorCode)

  /** One atomic step of the room store: the reply and the store afterwards. */
  datatype Step = Step(reply: Reply, rooms: map<string, Room>)

  /** `players.find(p => p.socketID === s)`: the index of the first player with that socket id. */
  function IndexOfSocket(ps: seq<Player>, s: string): (r: Option<nat>)
    ensures r.Some? ==> r.value < |ps| && ps[r.value].socketID == s
    ensures r.Some? ==> forall j :: 0 <= j < r.value ==> ps[j].socketID != s
    ensures r.None? <==> forall j :: 0 <= j < |ps| ==> ps[j].socketID != s
  {
    if |ps| == 0 then None
    else if ps[0].socketID == s then Some(0)
    else match IndexOfSocket(ps[1..], s)
      case None => None
      case Some(i) => Some(i + 1)
  }

  /** The shape every room the handlers produce keeps: once started, the schedule has one
      start time per question and the question pointer stays within [0, |questions|];
      a room whose pointer ran off the end, and a stale-ended room, are completed. */
  ghost predicate WellFormed(r: Room) {
    && (r.currentQuestion.Some? ==>
          && 0 <= r.currentQuestion.value <= |r.questions|
          && |r.questionStartTimes| == |r.questions|
          && r.gameStartTime.Some? && r.questionEndTime.Some?)
    && (r.currentQuestion == Some(|r.questions|) ==> r.isCompleted == Some(true) && r.completedAt.Some?)
    && (r.isStaleGame ==> r.isCompleted == Some(true) && r.completedAt.Some?)
  }

  ghost predicate AllWellFormed(rooms: map<string, Room>) {
    forall k :: k in rooms ==> WellFormed(rooms[k])
  }
}
