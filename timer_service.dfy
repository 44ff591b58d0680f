/** services/timer-service.js: create, look up, pause/resume, report and reset the
    stopwatch of a speed-reading session. The timer collection is a sequence of
    documents in insertion order; `findOne({ sessionId })` finds the first one. */
module TimerServiceModel {
  import opened Wrappers
  import opened TimerModel

  const NotFound: string := "Timer not found"

  /** The first timer of the session, if any. */
  function FindTimer(ts: seq<Timer>, sessionId: string): (r: Option<nat>)
    ensures r.Some? ==> r.value < |ts| && ts[r.value].sessionId == sessionId
    ensures r.Some? ==> forall j :: 0 <= j < r.value ==> ts[j].sessionId != sessionId
    ensures r.None? <==> forall j :: 0 <= j < |ts| ==> ts[j].sessionId != sessionId
  {
    if |ts| == 0 then None
    else if ts[0].sessionId == sessionId then Some(0)
    else match FindTimer(ts[1..], sessionId)
      case None => None
      case Some(i) => Some(i + 1)
  }

  /** A new timer: running from now, nothing paused. */
  function NewTimer(sessionId: string, now: int): (t: Timer)
    ensures t.sessionId == sessionId && t.isRunning && t.startTime == now
    ensures t.pausedAt == None && t.totalPausedTime == 0
    ensures ElapsedSeconds(t, now) == 0
  {
    Timer(sessionId, now, None, 0, true, now)
  }

  /** One toggle: a running timer is paused at `now`; a paused one resumes, crediting the
      pause to `totalPausedTime` when the pause instant is known. */
  function Toggled(t: Timer, now: int): (u: Timer)
    ensures u.isRunning == !t.isRunning && u.lastUpdated == now
    ensures u.sessionId == t.sessionId && u.startTime == t.startTime
    ensures t.isRunning ==> u.pausedAt == Some(now) && u.totalPausedTime == t.totalPausedTime
    ensures !t.isRunning ==> u.pausedAt == None
    ensures !t.isRunning && t.pausedAt.Some? ==> u.totalPausedTime == t.totalPausedTime + (now - t.pausedAt.value)
    ensures !t.isRunning && t.pausedAt.None? ==> u.totalPausedTime == t.totalPausedTime
  {
    if t.isRunning then t.(pausedAt := Some(now), isRunning := false, lastUpdated := now)
    else
      var credited := if t.pausedAt.Some? then t.totalPausedTime + (now - t.pausedAt.value) else t.totalPausedTime;
      t.(totalPausedTime := credited, pausedAt := None, isRunning := true, lastUpdated := now)
  }

  /** resetTimer: running again from now with no pause history. */
  function Reset(t: Timer, now: int): (u: Timer)
    ensures u.sessionId == t.sessionId && u.startTime == now && u.pausedAt == None
    ensures u.totalPausedTime == 0 && u.isRunning && u.lastUpdated == now
    ensures ElapsedSeconds(u, now) == 0
  {
    t.(startTime := now, pausedAt := None, totalPausedTime := 0, isRunning := true, lastUpdated := now)
  }

  datatype TimerStatus = TimerStatus(elapsedSeconds: nat, formattedTime: string, isRunning: bool)

  // ---------------------------------------------------------------- properties

  /** Pausing at p and resuming at r shifts the running clock back by exactly the pause:
      at the resume instant it shows what it showed at the pause. */
  lemma PauseThenResumeContinues(t: Timer, p: int, r: int, n: int)
    requires t.isRunning
    ensures var u := Toggled(Toggled(t, p), r);
            && u.isRunning
            && RawElapsed(u, n) == RawElapsed(t, n) - (r - p)
            && RawElapsed(u, r) == RawElapsed(t, p)
            && ElapsedSeconds(u, r) == ElapsedSeconds(t, p)
  {
  }

  /** While paused the shown time does not move, whatever the clock says. */
  lemma PausedTimerShowsPauseInstant(t: Timer, p: int, n: int)
    requires t.isRunning
    ensures ElapsedSeconds(Toggled(t, p), n) == ElapsedSeconds(t, p)
  {
  }

  /** Two toggles bring the running flag back. */
  lemma ToggleTwiceRestoresRunning(t: Timer, a: int, b: int)
    ensures Toggled(Toggled(t, a), b).isRunning == t.isRunning
  {
  }

  /** A reset timer counts whole seconds from the reset instant. */
  lemma ResetCountsFromNow(t: Timer, now: int, later: int)
    requires later >= now
    ensures ElapsedSeconds(Reset(t, now), later) == (later - now) / 1000
  {
  }

  // ---------------------------------------------------------------- the service

  class TimerService {
    var timers: seq<Timer>
    /** `isActive` of each speed-reading session, kept in step by toggleTimer. */
    var sessionActive: map<string, bool>

    constructor()
      ensures timers == [] && sessionActive == map[]
    {
      timers := [];
      sessionActive := map[];
    }

    method CreateTimer(sessionId: string, now: int) returns (t: Timer)
      modifies this
      ensures t == NewTimer(sessionId, now)
      ensures timers == old(timers) + [t] && sessionActive == old(sessionActive)
    {
      t := Timer(sessionId, now, None, 0, true, now);
      timers := timers + [t];
    }

    method GetTimerBySessionId(sessionId: string) returns (r: Result<Timer>)
      ensures r.Failure? <==> FindTimer(timers, sessionId).None?
      ensures r.Failure? ==> r.error == NotFound
      ensures r.Success? ==> r.value == timers[FindTimer(timers, sessionId).value]
    {
      var i := FindTimer(timers, sessionId);
      if i.None? {
        r := Failure(NotFound);
      } else {
        r := Success(timers[i.value]);
      }
    }

    method ToggleTimer(sessionId: string, now: int) returns (r: Result<Timer>)
      modifies this
      ensures r.Failure? <==> FindTimer(old(timers), sessionId).None?
      ensures r.Failure? ==> r.error == NotFound && timers == old(timers) && sessionActive == old(sessionActive)
      ensures r.Success? ==>
        var i := FindTimer(old(timers), sessionId).value;
        && r.value == Toggled(old(timers)[i], now)
        && timers == old(timers)[i := r.value]
        && sessionActive == if sessionId in old(sessionActive) then old(sessionActive)[sessionId := r.value.isRunning]
                            else old(sessionActive)
    {
      var found := FindTimer(timers, sessionId);
      if found.None? {
        r := Failure(NotFound);
        return;
      }
      var i := found.value;
      var timer := timers[i];
      if timer.isRunning {
        timer := timer.(pausedAt := Some(now));
        timer := timer.(isRunning := false);
      } else {
        if timer.pausedAt.Some? {
          var pausedTime := now - timer.pausedAt.value;
          timer := timer.(totalPausedTime := timer.totalPausedTime + pausedTime);
        }
        timer := timer.(pausedAt := None);
        timer := timer.(isRunning := true);
      }
      timer := timer.(lastUpdated := now);
      timers := timers[i := timer];
      if sessionId in sessionActive {
        sessionActive := sessionActive[sessionId := timer.isRunning];
      }
      r := Success(timer);
    }

    method GetTimerStatus(sessionId: string, now: int) returns (r: Result<TimerStatus>)
      ensures r.Failure? <==> FindTimer(timers, sessionId).None?
      ensures r.Failure? ==> r.error == NotFound
      ensures r.Success? ==>
        var t := timers[FindTimer(timers, sessionId).value];
        r.value == TimerStatus(ElapsedSeconds(t, now), FormattedTime(t, now), t.isRunning)
    {
      var found := FindTimer(timers, sessionId);
      if found.None? {
        r := Failure(NotFound);
      } else {
        var t := timers[found.value];
        r := Success(TimerStatus(ElapsedSeconds(t, now), FormattedTime(t, now), t.isRunning));
      }
    }

    method ResetTimer(sessionId: string, now: int) returns (r: Result<Timer>)
      modifies this
      ensures r.Failure? <==> FindTimer(old(timers), sessionId).None?
      ensures r.Failure? ==> r.error == NotFound && timers == old(timers)
      ensures r.Success? ==>
        var i := FindTimer(old(timers), sessionId).value;
        r.value == Reset(old(timers)[i], now) && timers == old(timers)[i := r.value]
      ensures sessionActive == old(sessionActive)
    {
      var found := FindTimer(timers, sessionId);
      if found.None? {
        r := Failure(NotFound);
        return;
      }
      var i := found.value;
      var timer := timers[i];
      timer := timer.(startTime := now, pausedAt := None, totalPausedTime := 0, isRunning := true, lastUpdated := now);
      timers := timers[i := timer];
      r := Success(timer);
    }
  }
}
