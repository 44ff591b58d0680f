/** services/speed-reading-service.js over models/speed-reading-model.js: speed-reading
    sessions paid for with the points of a user's first subscription, the results students
    post to them, their active flag, the remaining-points query and the choice of the
    prompt template that asks for a reading text. Documents are keyed by id; a new
    session's id is the parameter `newId`. */
module SpeedReading {
  import opened Wrappers
  import opened Accounts

  datatype Question = Question(question: string, options: seq<string>, correctIndex: int)

  /** A question as a student's result stores it: the session's question with the index
      the student chose. */
  datatype StudentQuestion = StudentQuestion(question: string, options: seq<string>, correctIndex: int,
                                             answer: Option<int>)

  /** One entry of `students`: what a student posts after reading. `date` falls back to
      the schema default `Date.now` when the post has none. */
  datatype StudentResult = StudentResult(userId: Option<string>, name: Option<string>, time: Option<int>,
                                         words: Option<int>, questions: seq<StudentQuestion>, date: Option<int>)

  datatype Session = Session(
    userId: string,
    title: string,
    timer: int,
    content: string,
    genre: string,
    classLevel: string,
    wordsCount: string,
    questions: seq<Question>,
    imageUrl: string,
    isActive: bool,
    students: seq<StudentResult>)

  /** The client's `sessionData`; "" stands for a missing string field. */
  datatype SessionData = SessionData(title: string, timer: Option<int>, content: string, genre: Option<string>,
                                     classLevel: string, wordsCount: string, questions: seq<Question>,
                                     imageUrl: Option<string>)

  const UserNotFound: string := "User not found"
  const NoPoints: string := "No available speed reading points"
  const SessionNotFound: string := "Speed reading session not found"
  /** The TypeError thrown by `session.isActive` when findById found nothing. */
  /** The ValidationError `save()` throws when a required path is missing or empty. */
  const SessionInvalid: string := "SpeedReading validation failed"
  const NullSession: string := "Cannot read properties of null (reading 'isActive')"

  // ---------------------------------------------------------------- creating a session

  /** `!activeSubscription || activeSubscription.speedReadingPoint <= 0` is false: there is
      a first subscription and its count is not a known number at or below zero (a missing
      count compares false with 0). */
  predicate HasPoints(u: User) {
    |u.subscription| > 0 && !(u.subscription[0].speedReadingPoint.Some? && u.subscription[0].speedReadingPoint.value <= 0)
  }

  /** `(speedReadingPoint || 0) - 1`: a missing or zero count is read as 0. */
  function Decremented(p: Option<int>): (r: int)
    ensures p.Some? ==> r == p.value - 1
    ensures p.None? ==> r == -1
  {
    if p.Some? && p.value != 0 then p.value - 1 else -1
  }

  /** The new session document: active, no students, and "" for a missing genre or image. */
  function NewSession(userId: string, d: SessionData): (s: Session)
    ensures s.isActive && s.students == []
    ensures s.userId == userId && s.title == d.title && s.content == d.content && s.questions == d.questions
    ensures s.genre == (if d.genre.Some? then d.genre.value else "")
    ensures s.imageUrl == (if d.imageUrl.Some? then d.imageUrl.value else "")
    ensures s.timer == (if d.timer.Some? then d.timer.value else 0)
  {
    Session(userId, d.title, d.timer.GetOr(0), d.content, d.genre.GetOr(""), d.classLevel, d.wordsCount,
            d.questions, d.imageUrl.GetOr(""), true, [])
  }

  /** The schema's required string paths are all present and non-empty. */
  predicate ValidSessionData(d: SessionData) {
    d.title != "" && d.content != "" && d.classLevel != "" && d.wordsCount != ""
  }

  /** The reply and both collections after a call. */
  datatype SessionStep = SessionStep(result: Result<Session>, users: map<string, User>, sessions: map<string, Session>)

  /** The user after paying for a session: the session id appended, one point taken from the
      first subscription. */
  function Charged(u: User, newId: string): (v: User)
    requires |u.subscription| > 0
    ensures v.points == u.points && v.books == u.books
    ensures v.speedReadingSessions == u.speedReadingSessions + [newId]
    ensures |v.subscription| == |u.subscription|
    ensures v.subscription[0].speedReadingPoint == Some(Decremented(u.subscription[0].speedReadingPoint))
    ensures v.subscription[0] == u.subscription[0].(speedReadingPoint := v.subscription[0].speedReadingPoint)
    ensures v.subscription[1..] == u.subscription[1..]
  {
    var first := u.subscription[0];
    u.(speedReadingSessions := u.speedReadingSessions + [newId],
       subscription := u.subscription[0 := first.(speedReadingPoint := Some(Decremented(first.speedReadingPoint)))])
  }

  /** createSession: an unknown user, then a first subscription without points, make it
      throw before anything is written; a required title, content, class level or word
      count that is missing makes `session.save()` throw before the user is charged. */
  function CreateSessionSpec(users: map<string, User>, sessions: map<string, Session>, userId: string,
                             d: SessionData, newId: string): (s: SessionStep)
    ensures userId !in users ==> s == SessionStep(Failure(UserNotFound), users, sessions)
    ensures userId in users && !HasPoints(users[userId]) ==> s == SessionStep(Failure(NoPoints), users, sessions)
    ensures userId in users && HasPoints(users[userId]) && !ValidSessionData(d) ==>
      s == SessionStep(Failure(SessionInvalid), users, sessions)
    ensures s.result.Success? <==> userId in users && HasPoints(users[userId]) && ValidSessionData(d)
    ensures s.result.Success? ==>
      && s.result.value == NewSession(userId, d)
      && s.sessions == sessions[newId := s.result.value]
      && s.users == users[userId := Charged(users[userId], newId)]
  {
    if userId !in users then SessionStep(Failure(UserNotFound), users, sessions)
    else if !HasPoints(users[userId]) then SessionStep(Failure(NoPoints), users, sessions)
    else if !ValidSessionData(d) then SessionStep(Failure(SessionInvalid), users, sessions)
    else
      var session := NewSession(userId, d);
      SessionStep(Success(session), users[userId := Charged(users[userId], newId)], sessions[newId := session])
  }

  // ---------------------------------------------------------------- the other operations

  /** The result as the schema stores it: everything the student sent, with the date of
      the post when it carries none. */
  function Recorded(student: StudentResult, now: int): (e: StudentResult)
    ensures e.date.Some? && e.(date := student.date) == student
    ensures e.date == if student.date.Some? then student.date else Some(now)
  {
    student.(date := Some(student.date.GetOr(now)))
  }

  function AddStudentResultSpec(sessions: map<string, Session>, sessionId: string, student: StudentResult, now: int)
    : (r: (Result<Session>, map<string, Session>))
    ensures sessionId !in sessions ==> r == (Failure(SessionNotFound), sessions)
    ensures sessionId in sessions ==>
      var old_ := sessions[sessionId];
      && r.0 == Success(old_.(students := old_.students + [Recorded(student, now)]))
      && r.1 == sessions[sessionId := r.0.value]
  {
    if sessionId !in sessions then (Failure(SessionNotFound), sessions)
    else
      var updated := sessions[sessionId].(students := sessions[sessionId].students + [Recorded(student, now)]);
      (Success(updated), sessions[sessionId := updated])
  }

  function UpdateStatusSpec(sessions: map<string, Session>, sessionId: string): (r: (Result<Session>, map<string, Session>))
    ensures sessionId !in sessions ==> r == (Failure(NullSession), sessions)
    ensures sessionId in sessions ==>
      && r.0 == Success(sessions[sessionId].(isActive := !sessions[sessionId].isActive))
      && r.1 == sessions[sessionId := r.0.value]
  {
    if sessionId !in sessions then (Failure(NullSession), sessions)
    else
      var updated := sessions[sessionId].(isActive := !sessions[sessionId].isActive);
      (Success(updated), sessions[sessionId := updated])
  }

  /** `subscription.find(sub => sub.isActive)`: the first entry whose flag is true. */
  function FirstActive(subs: seq<Subscription>): (r: Option<nat>)
    ensures r.Some? ==> r.value < |subs| && subs[r.value].isActive == Some(true)
    ensures r.Some? ==> forall j :: 0 <= j < r.value ==> subs[j].isActive != Some(true)
    ensures r.None? <==> forall j :: 0 <= j < |subs| ==> subs[j].isActive != Some(true)
  {
    if |subs| == 0 then None
    else if subs[0].isActive == Some(true) then Some(0)
    else match FirstActive(subs[1..])
      case None => None
      case Some(i) => Some(i + 1)
  }

  /** getUserRemainingPoints: the count of the first active subscription, 0 when there is
      none or its count is missing. */
  function RemainingPoints(users: map<string, User>, userId: string): (r: Result<int>)
    ensures userId !in users <==> r == Failure(UserNotFound)
    ensures userId in users && FirstActive(users[userId].subscription).None? ==> r == Success(0)
    ensures userId in users && FirstActive(users[userId].subscription).Some? ==>
      var p := users[userId].subscription[FirstActive(users[userId].subscription).value].speedReadingPoint;
      r == Success(if p.Some? then p.value else 0)
  {
    if userId !in users then Failure(UserNotFound)
    else match FirstActive(users[userId].subscription)
      case None => Success(0)
      case Some(i) =>
        var p := users[userId].subscription[i].speedReadingPoint;
        Success(if p.Some? && p.value != 0 then p.value else 0)
  }

  // ---------------------------------------------------------------- properties

  /** With an active first subscription holding p > 0 points, a session costs exactly one
      of the points getUserRemainingPoints reports. */
  lemma SessionCostsOnePoint(users: map<string, User>, sessions: map<string, Session>, userId: string,
                             d: SessionData, newId: string, p: int)
    requires userId in users && |users[userId].subscription| > 0
    requires users[userId].subscription[0].isActive == Some(true)
    requires users[userId].subscription[0].speedReadingPoint == Some(p) && p > 0
    requires ValidSessionData(d)
    ensures RemainingPoints(users, userId) == Success(p)
    ensures var s := CreateSessionSpec(users, sessions, userId, d, newId);
            s.result.Success? && RemainingPoints(s.users, userId) == Success(p - 1)
  {
    var s := CreateSessionSpec(users, sessions, userId, d, newId);
    assert FirstActive(s.users[userId].subscription) == Some(0);
  }

  /** A first subscription without a count pays for one session and is then at -1, so the
      next attempt is refused. */
  lemma MissingCountAllowsOneSession(users: map<string, User>, sessions: map<string, Session>, userId: string,
                                     d1: SessionData, id1: string, d2: SessionData, id2: string)
    requires userId in users && |users[userId].subscription| > 0
    requires users[userId].subscription[0].speedReadingPoint.None?
    requires ValidSessionData(d1)
    ensures var s1 := CreateSessionSpec(users, sessions, userId, d1, id1);
            var s2 := CreateSessionSpec(s1.users, s1.sessions, userId, d2, id2);
            && s1.result.Success?
            && s1.users[userId].subscription[0].speedReadingPoint == Some(-1)
            && s2.result == Failure(NoPoints) && s2.users == s1.users && s2.sessions == s1.sessions
  {
  }

  /** The check and getUserRemainingPoints read different entries: when the first
      subscription is inactive, sessions are paid from it while the query reports the first
      active one, which a session never changes. */
  lemma PointsReadFromDifferentEntries(users: map<string, User>, sessions: map<string, Session>, userId: string,
                                       d: SessionData, newId: string)
    requires userId in users && HasPoints(users[userId])
    requires users[userId].subscription[0].isActive != Some(true)
    ensures var s := CreateSessionSpec(users, sessions, userId, d, newId);
            RemainingPoints(s.users, userId) == RemainingPoints(users, userId)
  {
    var subs := users[userId].subscription;
    var s := CreateSessionSpec(users, sessions, userId, d, newId);
    var subs' := s.users[userId].subscription;
    assert subs'[1..] == subs[1..];
    FirstActiveTailOnly(subs, subs');
  }

  /** Two lists that differ only in an inactive head have the same first active entry. */
  lemma FirstActiveTailOnly(a: seq<Subscription>, b: seq<Subscription>)
    requires |a| > 0 && |b| == |a| && a[1..] == b[1..]
    requires a[0].isActive != Some(true) && b[0].isActive == a[0].isActive
    ensures FirstActive(a) == FirstActive(b)
    ensures FirstActive(a).Some? ==> a[FirstActive(a).value] == b[FirstActive(b).value]
  {
  }

  /** A result is appended, with the student's answers and dated, and nothing else about
      the session changes. */
  lemma AddStudentAppendsOne(sessions: map<string, Session>, sessionId: string, student: StudentResult, now: int)
    requires sessionId in sessions
    ensures var r := AddStudentResultSpec(sessions, sessionId, student, now);
            var s := r.1[sessionId];
            var added := s.students[|s.students| - 1];
            && |s.students| == |sessions[sessionId].students| + 1
            && added.questions == student.questions && added.name == student.name
            && added.time == student.time && added.words == student.words && added.userId == student.userId
            && added.date == (if student.date.Some? then student.date else Some(now))
            && s.(students := sessions[sessionId].students) == sessions[sessionId]
            && r.1.Keys == sessions.Keys
  {
  }

  /** Two status updates bring the session back. */
  lemma {:induction false} ToggleTwiceRestores(sessions: map<string, Session>, sessionId: string)
    requires sessionId in sessions
    ensures UpdateStatusSpec(UpdateStatusSpec(sessions, sessionId).1, sessionId).1 == sessions
  {
    var once := UpdateStatusSpec(sessions, sessionId).1;
    var twice := UpdateStatusSpec(once, sessionId).1;
    assert twice[sessionId] == sessions[sessionId];
    assert twice == sessions;
  }

  // ---------------------------------------------------------------- the service

  class SpeedReadingStore {
    var users: map<string, User>
    var sessions: map<string, Session>

    constructor(initialUsers: map<string, User>, initialSessions: map<string, Session>)
      ensures users == initialUsers && sessions == initialSessions
    {
      users := initialUsers;
      sessions := initialSessions;
    }

    /** Check the first subscription's points, save the session, record it on the user and
        take one point. `newId` is the id the database gives the new document. */
    method CreateSession(userId: string, d: SessionData, newId: string) returns (r: Result<Session>)
      requires newId !in sessions
      modifies this
      ensures SessionStep(r, users, sessions) == CreateSessionSpec(old(users), old(sessions), userId, d, newId)
    {
      if userId !in users {
        return Failure(UserNotFound);
      }
      var user := users[userId];
      if |user.subscription| == 0 || (user.subscription[0].speedReadingPoint.Some? && user.subscription[0].speedReadingPoint.value <= 0) {
        return Failure(NoPoints);
      }
      var activeSubscription := user.subscription[0];
      if !ValidSessionData(d) {
        return Failure(SessionInvalid);
      }
      var session := Session(userId, d.title, d.timer.GetOr(0), d.content, d.genre.GetOr(""), d.classLevel,
                             d.wordsCount, d.questions, d.imageUrl.GetOr(""), true, []);
      sessions := sessions[newId := session];
      user := user.(speedReadingSessions := user.speedReadingSessions + [newId]);
      var p := activeSubscription.speedReadingPoint;
      var previous := if p.Some? && p.value != 0 then p.value else 0;
      activeSubscription := activeSubscription.(speedReadingPoint := Some(previous - 1));
      user := user.(subscription := user.subscription[0 := activeSubscription]);
      users := users[userId := user];
      r := Success(session);
    }

    /** `now` is the instant of the post, which the schema's `Date.now` default reads. */
    method AddStudentResult(sessionId: string, student: StudentResult, now: int) returns (r: Result<Session>)
      modifies this
      ensures (r, sessions) == AddStudentResultSpec(old(sessions), sessionId, student, now)
      ensures users == old(users)
    {
      if sessionId !in sessions {
        return Failure(SessionNotFound);
      }
      var session := sessions[sessionId];
      var entry := student;
      if entry.date.None? {
        entry := entry.(date := Some(now));
      }
      session := session.(students := session.students + [entry]);
      sessions := sessions[sessionId := session];
      r := Success(session);
    }

    method UpdateSessionStatus(sessionId: string) returns (r: Result<Session>)
      modifies this
      ensures (r, sessions) == UpdateStatusSpec(old(sessions), sessionId)
      ensures users == old(users)
    {
      if sessionId !in sessions {
        return Failure(NullSession);
      }
      var session := sessions[sessionId];
      var updated := session.(isActive := !session.isActive);
      sessions := sessions[sessionId := updated];
      r := Success(updated);
    }
  }
}
