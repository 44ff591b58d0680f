# alippe backend: a verified model of its core

This project models, in Dafny, the core of the alippe learning-platform backend.

- **Quiz rooms.** Two or more connected clients play in a shared room. The model covers the socket handlers that:
  - create, join, start, answer, advance, disconnect and reconnect;
  - keep each room's version counter and lock flag;
  - run the per-room five-second sync;
  - run the three background sweeps: monitoring, stale games and inactive players.
- **Legacy handlers.** The older `socket.js` handler set works on the same room documents.
- **Speed-reading stopwatch.** The timer document's `elapsedTime` and `getFormattedTime`, and the timer service that creates, pauses, resumes and resets it.
- **Diary.** Sections and their tasks.
- **Payments.**
  - The parameter flattening and the signature pre-image of the payment gateway requests.
  - The effect of a purchase on the user's points and subscriptions.
- **Speed reading and prompts.**
  - The speed-reading sessions the points pay for.
  - The educational-content templates.
  - The AI prompt query, with its regex fallback, and the default prompt set.
- **Books and schedules.** The book shelf toggle, the category filter and the schedule pagination.

## How it is modelled

- **The database.** It is a value:
  - a map from id to document, where lookups are by id;
  - a sequence in insertion order, where the code uses `findOne` or `find` over a collection.
- **Handlers.** Each handler is two things:
  - a pure specification function from the old store to the reply and the new store;
  - a method of a state class (`RoomServer.Server`, `LegacySocket.LegacyServer`, `TimerServiceModel.TimerService`, `Diary.DiaryStore`, `Purchase.PurchaseStore`, `SpeedReading.SpeedReadingStore`), whose `ensures` ties the new fields to that function.
- **Proofs.** The properties are proved as lemmas about the specification functions.
- **Loops.** Where the source loops, the model has a method with a `while` loop proved against the function:
  - the question schedule;
  - the disconnect, stale and purge walks and the player filter;
  - the payment parameter flattening.
- **Inputs that come from outside.** The clock (`now`), database-assigned ids (`newId`), `JSON.parse` results and regex matching are parameters.

## Model

| member | source | states |
|---|---|---|
| RoomTypes.NewPlayer | models/player.js:5-26 | a new player has no points and no correct answers, has not answered and has an empty answer log; socket, type and connection are as given, and the nickname is stored trimmed |
| RoomTypes.NewRoom | models/room.js:20-27 | a new room holds only its creator and the payload's questions and time; it is open for joining, not started, at version 0, and has no `isCompleted` field yet |
| RoomTypes.WireCode | socket/constants/events.js:31-43 | every error code has a wire string except NOT_IN_ROOM, which the code table lacks |
| RoomTypes.IndexOfSocket | socket/handlers/gameHandlers.js:45-49 | the index of the first player with the socket id, and None exactly when no player has it |
| RoomUtils.AllHex | socket/utils/roomUtils.js:109-111 | true exactly when every character is a hexadecimal digit |
| RoomUtils.IsValidRoomId | socket/utils/roomUtils.js:109-111 | an id is valid exactly when it has 24 characters, all hexadecimal |
| RoomUtils.GetRoomById | socket/utils/roomUtils.js:118-123 | a malformed id gives no room without a lookup; a valid id gives the stored room, if any |
| RoomUtils.Bumped | socket/utils/roomUtils.js:43-50 | a saved room has its version one higher and its activity time set to now; nothing else changes |
| RoomUtils.UpdateRoomState | socket/utils/roomUtils.js:41-61 | only the named room is bumped; a missing id leaves the store unchanged |
| RoomUtils.ShouldStopSync | socket/utils/roomUtils.js:78-82 | the sync stops exactly when the room is gone, has no players or has `isCompleted` set to true |
| RoomUtils.SyncTickSpec | socket/utils/roomUtils.js:69-102 | a tick either stops with the store unchanged, or refreshes only `lastActivity` of the room, with no version bump |
| RoomUtils.BumpedWellFormed | socket/utils/roomUtils.js:43-50 | a version bump keeps a room well formed |
| RoomUtils.SyncTickPreservesWellFormed | socket/utils/roomUtils.js:69-102 | a sync tick keeps every room well formed |
| RoomHandlers.CreateRoomSpec | socket/handlers/roomHandlers.js:16-58 | an unparseable payload fails with CREATE_ROOM_ERROR and no change; otherwise exactly one new room is added and the others keep their contents; it holds the caller as a connected host with no score, the payload's questions and time, is open, at version 0 and created now |
| RoomHandlers.JoinSpec | socket/handlers/roomHandlers.js:65-149 | a malformed id fails with INVALID_ROOM_ID and an unknown room with ROOM_NOT_FOUND; the join succeeds exactly when the room is open and the socket is not yet a player; every failure leaves the store unchanged |
| RoomHandlers.JoinAppendsOneGuest | socket/handlers/roomHandlers.js:103-129 | a join appends exactly one fresh guest after the unchanged roster and bumps the version by one; other rooms are untouched |
| RoomHandlers.JoinRejectedAfterStart | socket/handlers/roomHandlers.js:88-138 | a started room refuses every join with GAME_ALREADY_STARTED and the store stays as it was |
| RoomHandlers.JoinRejectsDuplicateSocket | socket/handlers/roomHandlers.js:90-101 | a socket already bound to a player of an open room is refused with DUPLICATE_PLAYER |
| RoomHandlers.Schedule | socket/handlers/roomHandlers.js:183-196 | question i starts 3000 ms after now plus the duration and 3000 ms pause of every earlier question |
| RoomHandlers.ComputeSchedule | socket/handlers/roomHandlers.js:186-196 | the loop with its running cumulative time computes exactly that schedule |
| RoomHandlers.ScheduleGaps | socket/handlers/roomHandlers.js:189-196 | consecutive questions start exactly the earlier one's duration plus 3000 ms apart |
| RoomHandlers.ScheduleStrictlyIncreasing | socket/handlers/roomHandlers.js:189-196 | with non-negative durations the start times strictly increase |
| RoomHandlers.PrefixCostIncreasing | socket/handlers/roomHandlers.js:189-196 | the accumulated offset strictly grows with the question index |
| RoomHandlers.Started | socket/handlers/roomHandlers.js:180-200 | a started room is closed, points at question 0, starts 3000 ms after now, and carries the schedule; its first question ends one duration after its start; roster, questions, version and completion are kept |
| RoomHandlers.StartSpec | socket/handlers/roomHandlers.js:156-226 | invalid or unknown ids fail unchanged; a room without questions fails with START_GAME_ERROR and no change; otherwise the room is replaced by its started, bumped form |
| RoomHandlers.StartStampsFirstQuestion | socket/handlers/roomHandlers.js:183-203 | after a start, question 0 starts at the game start time (now + 3000), ends one duration later, and the version has gone up by one |
| RoomHandlers.RestartRewindsRunningRoom | socket/handlers/roomHandlers.js:160-203 | there is no lobby check: a running room can be started again, which rewinds it to question 0 with a schedule from the new instant |
| RoomHandlers.RequestStateSpec | socket/handlers/roomHandlers.js:233-287 | invalid or unknown ids fail unchanged; a caller who is not a player fails with NOT_IN_ROOM; the request succeeds exactly when the id is valid, the room is stored and the caller is on its roster, and then only that player is marked connected and active now, with no version bump |
| RoomHandlers.ReconnectSpec | socket/handlers/roomHandlers.js:294-352 | invalid or unknown ids fail unchanged; an unknown old socket fails with PLAYER_NOT_FOUND; reconnection succeeds exactly when the id is valid, the room is stored and the old socket is on its roster, and then only the matched player is rebound to the new socket and marked connected |
| RoomHandlers.ReconnectPreservesProgress | socket/handlers/roomHandlers.js:317-323 | reconnection keeps the player's points, correct count, answer log and disconnect time, and every other player |
| RoomHandlers.CreatePreservesWellFormed | socket/handlers/roomHandlers.js:16-58 | creation keeps every room well formed |
| RoomHandlers.JoinPreservesWellFormed | socket/handlers/roomHandlers.js:65-149 | a join keeps every room well formed |
| RoomHandlers.StartPreservesWellFormed | socket/handlers/roomHandlers.js:156-226 | a start keeps every room well formed: one start time per question and a pointer in range |
| RoomHandlers.RequestStatePreservesWellFormed | socket/handlers/roomHandlers.js:233-287 | a state request keeps every room well formed |
| RoomHandlers.ReconnectPreservesWellFormed | socket/handlers/roomHandlers.js:294-352 | a reconnect keeps every room well formed |
| GameHandlers.Answered | socket/handlers/gameHandlers.js:52-70 | an answering player is marked answered and its log grows by the submitted entry; points and correct count move only for a correct answer; identity and connection are kept |
| GameHandlers.TapSpec | socket/handlers/gameHandlers.js:14-93 | a missing field fails with VALIDATION_ERROR, and an unknown room or player with TAP_ERROR, in both cases unchanged; otherwise the tap is accepted |
| GameHandlers.TapRecordsOneAnswer | socket/handlers/gameHandlers.js:52-81 | an accepted tap changes only the answering player's record: one log entry more, the claimed points added only if correct; the version goes up by one and other rooms are untouched |
| GameHandlers.TapAcceptsQuestionZero | socket/handlers/gameHandlers.js:31-43 | question index 0 counts as present, so such a tap is accepted |
| GameHandlers.TapTwiceScoresTwice | socket/handlers/gameHandlers.js:14-93 | there is no request-id deduplication: the same tap twice logs two entries, adds the points twice and bumps the version twice |
| GameHandlers.IndexOfSocketSameIds | socket/handlers/gameHandlers.js:45-49 | which player a socket finds depends only on the socket ids |
| GameHandlers.Advanced | socket/handlers/gameHandlers.js:134-155 | an advance moves the pointer one question on; past the last question the game is completed now, otherwise the end time comes from the stored schedule |
| GameHandlers.NextQuestionSpec | socket/handlers/gameHandlers.js:100-183 | invalid or unknown ids fail unchanged; an index that is out of range or differs from the current one fails with INVALID_QUESTION_INDEX; the advance succeeds exactly when the index is the current in-range one, and it advances and bumps only that room |
| GameHandlers.NextRejectsWrongIndex | socket/handlers/gameHandlers.js:124-131 | a wrong, stale or out-of-range index never moves the pointer |
| GameHandlers.NextAdvancesByOne | socket/handlers/gameHandlers.js:134-172 | an accepted advance moves the pointer by exactly one; reaching the end completes the game, otherwise the new question's end time is its scheduled start plus its duration |
| GameHandlers.CompletedByAdvanceIsFinal | socket/handlers/gameHandlers.js:124-142 | a room completed by advancing past its last question accepts no further advance |
| GameHandlers.CompletedRoomCanStillAdvance | socket/handlers/gameHandlers.js:104-134 | the handler never reads `isCompleted`: a room the stale sweep ended can still be advanced |
| GameHandlers.UnstartedUndefinedIndexThrows | socket/handlers/gameHandlers.js:124-134 | with no index on a room that was never started, the index check passes; the handler then throws and reports NEXT_QUESTION_ERROR, changing nothing |
| GameHandlers.DisconnectRoom | socket/handlers/gameHandlers.js:200-216 | a room without the socket is untouched; otherwise the roster keeps its length |
| GameHandlers.DisconnectSpec | socket/handlers/gameHandlers.js:190-221 | every room is processed separately, and no room is added or removed |
| GameHandlers.DisconnectKeepsRoster | socket/handlers/gameHandlers.js:200-216 | disconnecting removes nobody: only the first player on the socket is marked disconnected now, and only rooms holding the socket are bumped |
| GameHandlers.DisconnectThenReconnectPreservesScore | socket/handlers/gameHandlers.js:200-216 | disconnecting and then reconnecting under the old socket gives the player back with the same points, log and correct count |
| GameHandlers.TapPreservesWellFormed | socket/handlers/gameHandlers.js:14-93 | a tap keeps every room well formed |
| GameHandlers.NextQuestionPreservesWellFormed | socket/handlers/gameHandlers.js:100-183 | an advance keeps every room well formed: the pointer stays within the questions, and running off the end completes the room |
| GameHandlers.DisconnectPreservesWellFormed | socket/handlers/gameHandlers.js:190-221 | a disconnect keeps every room well formed |
| Monitoring.EndedStale | socket/utils/monitoringUtils.js:56-61 | a swept room is completed now and flagged stale; nothing else changes, and there is no version bump |
| Monitoring.IsStale | socket/utils/monitoringUtils.js:47-54 | the stale query: `isCompleted` stored as false, `isJoin` false, and a recorded `lastActivity` strictly before now minus 30 minutes (definition; its meaning is stated by SweepStaleSpec and SweepSparesLobbyAndActive) |
| Monitoring.SweepStaleSpec | socket/utils/monitoringUtils.js:47-61 | exactly the started rooms whose `isCompleted` is stored as false and that are idle for more than 30 minutes are ended; no room is added or removed |
| Monitoring.SweepStaleIdempotent | socket/utils/monitoringUtils.js:47-61 | after a sweep nothing is stale at that instant, and a second sweep at the same instant changes nothing |
| Monitoring.SweptRoomStaysEnded | socket/utils/monitoringUtils.js:50-59 | a room the sweep ended keeps its completion stamp through every later sweep |
| Monitoring.SweepSparesLobbyAndActive | socket/utils/monitoringUtils.js:50-54 | the sweep never ends a room in its lobby, nor one active within the last 30 minutes |
| Monitoring.SyncTickHoldsOffStaleSweep | socket/utils/monitoringUtils.js:47-54 | a room whose five-second sync fired at t is not stale at any instant up to 30 minutes after t |
| Monitoring.StartedRoomNeverSwept | socket/utils/monitoringUtils.js:9-61 | a room made by `createRoom` and then started has no `isCompleted` field, so the stale sweep never ends it and the statistics never count it |
| Monitoring.SweepStalePreservesWellFormed | socket/utils/monitoringUtils.js:47-61 | the stale sweep keeps every room well formed |
| Monitoring.KeepPlayers | socket/utils/monitoringUtils.js:94-101 | the filter never lengthens the roster, and keeps its full length exactly when every player passes, in which case the roster is returned unchanged |
| Monitoring.KeepPlayer | socket/utils/monitoringUtils.js:94-99 | the filter predicate: connected, never disconnected, or disconnected at most five minutes ago (definition; KeepPlayersMembers states the filter by it) |
| Monitoring.KeepPlayersMembers | socket/utils/monitoringUtils.js:94-101 | a player is kept exactly when it was on the roster and is connected, never disconnected, or disconnected for at most five minutes |
| Monitoring.KeepPlayersKeepsOrder | socket/utils/monitoringUtils.js:94-101 | the kept players are an order-preserving selection of the roster |
| Monitoring.KeepPlayersIdempotent | socket/utils/monitoringUtils.js:94-101 | filtering twice at the same instant is filtering once |
| Monitoring.PurgeRoom | socket/utils/monitoringUtils.js:91-110 | only the roster of a room changes, and it becomes the filtered roster (so a room nobody leaves is unchanged); there is no version bump |
| Monitoring.PurgeInactiveSpec | socket/utils/monitoringUtils.js:81-110 | every room is replaced by its purged form and no room is added or removed; the query selects every room that loses somebody and possibly others (its two conditions may hold for different players), where the filter drops nobody, so purging every room gives the same store |
| Monitoring.PurgeKeepsConnected | socket/utils/monitoringUtils.js:94-101 | nobody connected, and nobody disconnected within five minutes, is ever removed |
| Monitoring.PurgeIdempotent | socket/utils/monitoringUtils.js:81-110 | a second cleanup at the same instant removes nobody |
| Monitoring.PurgePreservesWellFormed | socket/utils/monitoringUtils.js:81-110 | the cleanup keeps every room well formed |
| Monitoring.ActiveRooms | socket/utils/monitoringUtils.js:9-11 | the query returns exactly the rooms of the listing whose `isCompleted` is stored as false, as an order-preserving selection of the listing; a room without the field is not returned |
| Monitoring.TotalPlayers | socket/utils/monitoringUtils.js:19-22 | the reduce that adds up the roster lengths of the selected rooms (definition; ActiveRoomsPlayers states what it counts) |
| Monitoring.ActiveRoomsPlayers | socket/utils/monitoringUtils.js:9-22 | summing the rosters of the selected rooms counts exactly the players of the listing's rooms whose `isCompleted` is stored as false |
| Monitoring.Details | socket/utils/monitoringUtils.js:23-29 | one detail per active room with its player and question counts; a room with no creation time makes the snapshot fail |
| Monitoring.MonitoringStats | socket/utils/monitoringUtils.js:9-29 | the snapshot fails exactly when a room with `isCompleted` stored as false has no creation time; otherwise it is stamped now, `activeRooms` is the number of such rooms, `roomsDetails` holds one detail per such room in listing order, and `totalPlayers` is the number of players in those rooms |
| Monitoring.TotalPlayersMatchesDetails | socket/utils/monitoringUtils.js:19-29 | the player total equals the sum of the per-room player counts |
| RoomServer.Server.constructor | socket/utils/roomUtils.js:13-34 | an empty store with no locks and no syncs, satisfying the invariant |
| RoomServer.Server.Touch | socket/utils/roomUtils.js:41-61 | the store becomes its `updateRoomState` image; locks and syncs are unchanged |
| RoomServer.Server.ScheduleSync | socket/utils/roomUtils.js:69-102 | the room joins the set of synced rooms and nothing else changes |
| RoomServer.Server.Acquire | socket/utils/roomUtils.js:13-27 | the room's lock flag is set and nothing else changes |
| RoomServer.Server.Release | socket/utils/roomUtils.js:28-33 | the room's lock flag is cleared and nothing else changes |
| RoomServer.Server.CreateRoom | socket/handlers/roomHandlers.js:16-58 | the reply and the store follow the create specification, and a new room is put under sync |
| RoomServer.Server.JoinRoom | socket/handlers/roomHandlers.js:65-149 | the reply and the store follow the join specification; a successful join starts the sync; the lock is released on every path |
| RoomServer.Server.StartGame | socket/handlers/roomHandlers.js:156-226 | the reply and the store follow the start specification; the lock is released on every path |
| RoomServer.Server.RequestRoomState | socket/handlers/roomHandlers.js:233-287 | the reply and the store follow the request-state specification; locks and syncs are unchanged |
| RoomServer.Server.Reconnect | socket/handlers/roomHandlers.js:294-352 | the reply and the store follow the reconnect specification; locks and syncs are unchanged |
| RoomServer.Server.Tap | socket/handlers/gameHandlers.js:14-93 | the reply and the store follow the tap specification; the lock is released on every path |
| RoomServer.Server.NextQuestion | socket/handlers/gameHandlers.js:100-183 | the reply and the store follow the advance specification; the lock is released on every path |
| RoomServer.Server.Disconnect | socket/handlers/gameHandlers.js:190-221 | the store becomes its disconnect image; locks and syncs are unchanged and the invariant holds |
| RoomServer.Server.DisconnectAll | socket/handlers/gameHandlers.js:200-216 | the walk over the rooms computes exactly the disconnect image of the store |
| RoomServer.Server.SweepStale | socket/utils/monitoringUtils.js:44-72 | the store becomes its stale-sweep image and the invariant holds |
| RoomServer.Server.EndStaleGames | socket/utils/monitoringUtils.js:56-67 | the walk over the rooms computes exactly the stale-sweep image |
| RoomServer.Server.FilterPlayers | socket/utils/monitoringUtils.js:92-101 | the kept players are the filter of the roster, and `hasChanges` is set exactly when some player is dropped |
| RoomServer.Server.PurgeInactive | socket/utils/monitoringUtils.js:78-115 | the store becomes its cleanup image and the invariant holds |
| RoomServer.Server.PurgeRooms | socket/utils/monitoringUtils.js:91-111 | the walk over the rooms computes exactly the cleanup image |
| RoomServer.Server.SyncTick | socket/utils/roomUtils.js:69-102 | the tick follows the sync specification, and a stopped room's interval is dropped |
| RoomServer.Server.CleanupRoom | socket/utils/roomUtils.js:129-137 | only this room's interval is dropped, and only this room's lock flag is cleared, and only if it was set |
| LegacySocket.LegacyPlayer | socket.js:15-20 | a legacy player has no points and no correct answers, is not connected and has no activity time; the nickname is stored trimmed |
| LegacySocket.LegacyCreateSpec | socket.js:10-33 | a payload that does not parse is only logged, with no change; otherwise one room is added with the caller as host, the payload's data, open, at version 0 and with no timestamps |
| LegacySocket.LegacyJoinSpec | socket.js:34-81 | a malformed id gets the invalid-id message; a missing room is only logged; the join succeeds exactly when the room is open and the socket is new; a failure changes nothing |
| LegacySocket.LegacyJoinAppendsOneGuest | socket.js:57-66 | a legacy join appends one guest with no points and changes no existing player and no other field of the room |
| LegacySocket.LegacyJoinClosedAfterStart | socket.js:71-92 | after a legacy start, every join gets the already-started message |
| LegacySocket.LegacyStartSpec | socket.js:83-100 | a malformed id gets the invalid-id message; a start succeeds exactly on an existing room |
| LegacySocket.LegacyStartOnlyClosesLobby | socket.js:91-92 | a legacy start changes only the lobby flag: no schedule, no pointer and no version |
| LegacySocket.LegacyTapSpec | socket.js:102-144 | a tap succeeds exactly for a well-formed, existing room and a present player; anything else is only logged, with no change |
| LegacySocket.LegacyTapScoresOnlyCorrect | socket.js:114-131 | a legacy tap always logs the answer and adds the unrounded points only for a correct answer |
| LegacySocket.LegacyHasAnswersSpec | socket.js:145-153 | the store is never changed, and the rebroadcast happens exactly for an existing room |
| LegacySocket.FirstHost | socket.js:161-168 | the first host of the roster, or None exactly when there is no host |
| LegacySocket.LegacyEndSpec | socket.js:154-172 | ending never changes the store; `endGame` is sent exactly when the room exists and has a host, otherwise the error is logged |
| LegacySocket.LegacyEndReachesCreator | socket.js:10-172 | ending a room made by the legacy create reaches the caller and the creator |
| LegacySocket.LegacyServer.CreateRoom | socket.js:10-33 | the reply and the store follow the legacy create specification |
| LegacySocket.LegacyServer.JoinRoom | socket.js:34-81 | the reply and the store follow the legacy join specification |
| LegacySocket.LegacyServer.StartGame | socket.js:83-100 | the reply and the store follow the legacy start specification |
| LegacySocket.LegacyServer.Tap | socket.js:102-144 | the reply and the store follow the legacy tap specification |
| LegacySocket.LegacyServer.HasAnswers | socket.js:145-153 | the reply follows the specification; the store is unchanged |
| LegacySocket.LegacyServer.End | socket.js:154-172 | the reply follows the specification; the store is unchanged |
| TimerModel.ElapsedSeconds | models/timer-model.js:22-35 | the elapsed time is 0 below one second; otherwise it is the whole number of seconds in the elapsed milliseconds |
| TimerModel.RawElapsed | models/timer-model.js:26-32 | the elapsed milliseconds: now minus start and pauses while running, the pause instant minus start and pauses when paused, else 0 (definition; PausedTimeIsFrozen and StoppedWithoutPauseShowsZero state its consequences) |
| TimerModel.FormatClock | models/timer-model.js:44-48 | the three components padded to two digits and joined by ':' (definition; FormatClockReadsBack states its meaning) |
| TimerModel.FormattedTime | models/timer-model.js:38-49 | `getFormattedTime`: elapsedTime split into hours, minutes and seconds and formatted (definition; FormattedTimeReadsBack states its meaning) |
| TimerModel.SplitSecondsExact | models/timer-model.js:40-42 | hours, minutes and seconds add back up to the total, with minutes and seconds below 60 |
| TimerModel.Pad2 | models/timer-model.js:45-47 | the padded component is all digits, reads back as the number, and is two characters long below 10 |
| TimerModel.SplitOn | models/timer-model.js:44-48 | a split always gives at least one piece |
| TimerModel.SplitClock | models/timer-model.js:44-48 | three digit groups joined by ':' split back into exactly those groups |
| TimerModel.ParseJoined | models/timer-model.js:44-48 | joined digit groups parse back as their clock value |
| TimerModel.FormatClockReadsBack | models/timer-model.js:44-48 | a formatted clock reads back as its hours, minutes and seconds |
| TimerModel.FormattedTimeReadsBack | models/timer-model.js:38-49 | `getFormattedTime` reads back as exactly `elapsedTime` |
| TimerModel.HoursNotTruncated | models/timer-model.js:45 | the hours field is never truncated: from 10 hours on it is the full decimal number |
| TimerModel.PausedTimeIsFrozen | models/timer-model.js:28-34 | a stopped timer shows the same elapsed and formatted time whenever it is read |
| TimerModel.StoppedWithoutPauseShowsZero | models/timer-model.js:30-31 | a stopped timer without a pause instant shows 0 and "00:00:00" |
| TimerModel.ZeroClockText | models/timer-model.js:44-48 | zero seconds format as "00:00:00" |
| TimerServiceModel.FindTimer | services/timer-service.js:25 | the first timer of the session, or None exactly when the session has none |
| TimerServiceModel.NewTimer | services/timer-service.js:8-12 | a new timer runs from now with nothing paused and shows 0 |
| TimerServiceModel.Toggled | services/timer-service.js:44-61 | a toggle flips the running flag; a pause records the instant; a resume credits the pause length when its start is known and clears the instant |
| TimerServiceModel.Reset | services/timer-service.js:104-108 | a reset timer runs from now with no pause history and shows 0 |
| TimerServiceModel.PauseThenResumeContinues | services/timer-service.js:46-59 | after a pause and a resume the clock is behind by exactly the pause, and at the resume it shows what it showed at the pause |
| TimerServiceModel.PausedTimerShowsPauseInstant | services/timer-service.js:46-49 | a paused timer shows the time of the pause instant, whatever the clock says |
| TimerServiceModel.ToggleTwiceRestoresRunning | services/timer-service.js:46-59 | two toggles restore the running flag |
| TimerServiceModel.ResetCountsFromNow | services/timer-service.js:104-108 | after a reset the timer counts whole seconds from the reset instant |
| TimerServiceModel.TimerService.CreateTimer | services/timer-service.js:6-20 | a new running timer is appended to the collection |
| TimerServiceModel.TimerService.GetTimerBySessionId | services/timer-service.js:23-34 | the session's first timer, or "Timer not found" exactly when the session has none |
| TimerServiceModel.TimerService.ToggleTimer | services/timer-service.js:37-75 | "Timer not found" with no change, or the first timer is replaced by its toggled form and the session's active flag follows its running flag |
| TimerServiceModel.TimerService.GetTimerStatus | services/timer-service.js:78-94 | "Timer not found", or the elapsed seconds, the formatted time and the running flag of the first timer |
| TimerServiceModel.TimerService.ResetTimer | services/timer-service.js:97-117 | "Timer not found" with no change, or the first timer is replaced by its reset form |
| Diary.FindSection | controllers/DiaryController.js:166-169 | the first section with both the id and the user, or None exactly when there is none |
| Diary.FindTask | controllers/DiaryController.js:233 | the first task with the id, or None exactly when there is none |
| Diary.SectionId | controllers/DiaryController.js:82 | the generated section id is "section_" followed by the decimal digits of the instant |
| Diary.CreateSectionSpec | controllers/DiaryController.js:70-112 | a missing user gives 400; creation succeeds exactly when the trimmed title, letter and colour are non-empty, the trimmed letter has at most one character, and the id is not taken; it then appends one empty section holding the trimmed texts; a failure changes nothing |
| Diary.NewTask | controllers/DiaryController.js:179-188 | a new task is open and carries the section's id, title and colour, and the body's title trimmed; its id is the body's when sent, else "task_" and the instant; time defaults to "00:00" and urgency to false |
| Diary.NewTaskId | controllers/DiaryController.js:179-182 | the id of a new task: the body's `id` when sent, else "task_" and the instant (definition) |
| Diary.ValidTaskBody | models/section-model.js:5-19 | the task schema's required checks: a title not blank once trimmed, a non-empty date, and no empty `id` (definition; AddTaskSpec states the 500 it leads to) |
| Diary.TaskIdHeldElsewhere | models/section-model.js:5-10 | the unique index on `tasks.id`: some task of another section already has the id; MongoDB enforces the index between documents, not inside one (definition) |
| Diary.AddTaskSpec | controllers/DiaryController.js:154-204 | a missing user gives 400 and an unknown section 404; adding succeeds exactly when the section exists, the body has a title that is not blank once trimmed, a non-empty date and no empty id, and no task of another section already has the new task's id; any other body gives 500 (a validation or duplicate-key error); a failure changes nothing |
| Diary.AddTaskAppendsOne | controllers/DiaryController.js:178-191 | adding appends exactly that one task to that section; the other tasks and sections are untouched |
| Diary.BodyIdOverridesGeneratedId | controllers/DiaryController.js:179-182 | an `id` sent in the body replaces the generated task id |
| Diary.AddTaskRejectsIdHeldElsewhere | controllers/DiaryController.js:179-203 | a body `id` already used by a task of another section makes the save fail with a duplicate key: 500 and nothing changes |
| Diary.AddTaskKeepsIdsUniqueAcrossSections | models/section-model.js:5-10 | adding a task keeps every task id unique across sections, the state the unique index maintains |
| Diary.SetCompletionSpec | controllers/DiaryController.js:207-265 | a missing user gives 400; the update succeeds exactly when the section and the task exist; a failure changes nothing |
| Diary.CompletionStampsTime | controllers/DiaryController.js:243-250 | the flag is set, and the completion time is stamped exactly when the task is completed; every other task is kept |
| Diary.DeleteTaskSpec | controllers/DiaryController.js:268-321 | a missing user gives 400; deletion succeeds exactly when the section and the task exist; a failure changes nothing |
| Diary.DeleteRemovesFirstMatch | controllers/DiaryController.js:294-304 | deletion removes exactly the first task with the id and keeps the others in order |
| Diary.DeleteThenFindSkipsRemoved | controllers/DiaryController.js:281-304 | when the id is unique, the deleted task cannot be found again: a second delete is a 404 |
| Diary.RemovedTaskIsGone | controllers/DiaryController.js:304 | removing the only task with an id leaves no task with it |
| Diary.EditedTask | controllers/DiaryController.js:368-395 | the edited task keeps its id, section data and completion; title (trimmed), date and time change only for non-empty values, and urgency for any given value |
| Diary.EditTaskSpec | controllers/DiaryController.js:324-424 | a missing user or title gives 400; the edit succeeds exactly when the section and the task exist and the title is not blank once trimmed; a blank title on a found task gives 400; a failure changes nothing |
| Diary.EditKeepsIdentity | controllers/DiaryController.js:368-395 | editing never changes a task's identity, section or completion state, and stores the trimmed title |
| Diary.EditFallbacks | controllers/DiaryController.js:368-395 | an urgency of false still overwrites, but an empty date or time does not |
| Diary.DiaryStore.CreateSection | controllers/DiaryController.js:70-112 | the status and the sections follow the create specification |
| Diary.DiaryStore.AddTaskToSection | controllers/DiaryController.js:154-204 | the status and the sections follow the add specification, the duplicate-key failure included |
| Diary.DiaryStore.UpdateTaskCompletionStatus | controllers/DiaryController.js:207-265 | the status and the sections follow the completion specification |
| Diary.DiaryStore.DeleteTaskFromSection | controllers/DiaryController.js:268-321 | the status and the sections follow the delete specification |
| Diary.DiaryStore.UpdateTaskInSection | controllers/DiaryController.js:324-424 | the status and the sections follow the edit specification |
| Payment.IndexSuffix | controllers/PaymentController.js:259 | the running index padded to at least three digits, exactly three below 1000 |
| Payment.SuffixValue | controllers/PaymentController.js:259 | the suffix is all digits and reads back as the index |
| Payment.Lookup | controllers/PaymentController.js:280 | a key of an object is absent exactly when it is not among its keys |
| Payment.Put | controllers/PaymentController.js:267 | an assignment keeps the keys distinct and brings in no key but the assigned one; a new key is appended at the end |
| Payment.PutLookup | controllers/PaymentController.js:260-268 | after an assignment the key holds the new value and every other key its old one |
| Payment.Merge | controllers/PaymentController.js:262-265 | in a spread merge each key takes the later object's value when it has one, else the earlier one's |
| Payment.Flatten | controllers/PaymentController.js:253-272 | a successful flattening has distinct keys |
| Payment.MakeFlatParamsArray | controllers/PaymentController.js:253-272 | the loop with its running index and its recursion computes exactly the flattening function |
| Payment.PrefixFailure | controllers/PaymentController.js:261-268 | once a prefix of the fields fails on `null`, the whole request fails |
| Payment.NamesDistinct | controllers/PaymentController.js:259 | numbered names are distinct while fewer than 1000 fields share a prefix |
| Payment.FlatRequestOneEntryEach | controllers/PaymentController.js:253-272 | a flat request with distinct field names and fewer than 1000 fields gives one parameter per field, in field order, none overwritten |
| Payment.LastNameFresh | controllers/PaymentController.js:259 | the last field's numbered name is none of the earlier ones |
| Payment.BelowTotal | controllers/PaymentController.js:278 | the string order of the sort relates any two different strings |
| Payment.BelowIrreflexive | controllers/PaymentController.js:278 | no string sorts below itself |
| Payment.BelowTransitive | controllers/PaymentController.js:278 | the string order is transitive |
| Payment.SortKeys | controllers/PaymentController.js:278 | the sorted keys are an ascending permutation of the keys |
| Payment.AscendingUnique | controllers/PaymentController.js:278 | two ascending arrangements of the same keys are the same list, so the sort's result is determined |
| Payment.ValuesAt | controllers/PaymentController.js:279-287 | one value per key, in the given key order |
| Payment.SortedKeysOf | controllers/PaymentController.js:278 | the object's keys as an ascending permutation, each present in the object |
| Payment.SignatureLayout | controllers/PaymentController.js:285-293 | the pre-image is the script name, then one value per parameter in ascending key order, then the secret, joined by ';' |
| Payment.SignatureBase | controllers/PaymentController.js:285-293 | the string fed to MD5: script name, the values in sorted key order, the secret, joined by ';' (definition; SignatureLayout and SignatureInOrder state its meaning) |
| Payment.SignatureInOrder | controllers/PaymentController.js:278-293 | any ascending arrangement of the keys signs the same pre-image |
| Payment.PreImage | controllers/PaymentController.js:275-293 | the pre-image of a request, or None exactly when flattening fails |
| Payment.PreImageArranged | controllers/PaymentController.js:275-293 | a flat request signs, in ascending name order, the value of the field that sorts at each position |
| Payment.InitPreImage | controllers/PaymentController.js:299-374 | the payment-creation pre-image is the script, then amount, currency, description, merchant, order, payment method, salt, success URL and lifetime, then the secret: ascending name order, not field order |
| Payment.StatusPreImage | controllers/PaymentController.js:236-297 | the status pre-image is the script, merchant, payment id and salt, which is also the field order, then the secret |
| Payment.StatusRequest | controllers/PaymentController.js:240-244 | the status request object: merchant id, payment id and the fixed salt, in that field order (definition) |
| Payment.InitRequest | controllers/PaymentController.js:309-320 | the payment-creation request object: order, merchant, amount, description, the fixed salt, currency "KGS", payment method, lifetime "10" and success URL, in that field order (definition) |
| Purchase.PointsEarned | controllers/PaymentController.js:74 | the points earned are the largest p with 5p at most the amount, never negative for a non-negative amount |
| Purchase.FindTitle | controllers/PaymentController.js:88-90 | the first subscription with the product's title, or None exactly when there is none |
| Purchase.NewSubscription | controllers/PaymentController.js:97-114 | a new subscription is active and expires in thirty days; it carries plan and quiz points only for the "ai" product, and never speed-reading points |
| Purchase.PurchasedSubscriptions | controllers/PaymentController.js:88-115 | the first subscription with the title is renewed, or else exactly one is appended |
| Purchase.PurchaseSpec | controllers/PaymentController.js:72-146 | an unknown user changes nothing; otherwise only that user changes: the points are credited and the subscription list becomes the renewed or extended list of the purchase |
| Purchase.RenewalOnlyMovesExpiry | controllers/PaymentController.js:92-96 | renewing only moves that entry's expiry; no entry is added and nothing else changes |
| Purchase.DuplicateTitleNotRenewed | controllers/PaymentController.js:88-96 | only the first entry with the title is renewed; a later duplicate keeps its expiry |
| Purchase.FirstPurchaseAddsOneTitle | controllers/PaymentController.js:97-115 | a first purchase leaves exactly one entry more with the title |
| Purchase.RepeatPurchaseRenews | controllers/PaymentController.js:74-115 | buying the same product twice adds one entry, not two, and credits the points of both payments |
| Purchase.PurchaseStore.PurchaseService | controllers/PaymentController.js:72-146 | the users become their purchase image |
| SpeedReading.Decremented | services/speed-reading-service.js:43-44 | a missing count becomes -1; a present count goes down by one |
| SpeedReading.NewSession | services/speed-reading-service.js:26-38 | a new session is active and has no students; it keeps the given title, content and questions, and uses "" for a missing genre or image and 0 for a missing timer |
| SpeedReading.HasPoints | services/speed-reading-service.js:19-23 | the points check: a first subscription exists and its count is not stored at zero or below; a missing count passes (definition; CreateSessionSpec states the error it leads to) |
| SpeedReading.ValidSessionData | models/speed-reading-model.js:11-15 | the session schema's required fields: title, content, class level and word count are non-empty (definition) |
| SpeedReading.Charged | services/speed-reading-service.js:41-45 | paying records the session on the user and takes one point from the first subscription; nothing else changes |
| SpeedReading.CreateSessionSpec | services/speed-reading-service.js:8-52 | an unknown user gives "User not found"; a first subscription that is missing or at zero or below gives the no-points error; an empty title, content, class level or word count fails validation unchanged; otherwise the new session is stored and the user is charged |
| SpeedReading.AddStudentResultSpec | services/speed-reading-service.js:55-70 | an unknown session gives "Session not found"; otherwise the result is appended with its answers, dated now when it carries no date |
| SpeedReading.Recorded | models/speed-reading-model.js:25-44 | the stored result is the given one, answers included, with the date defaulting to now |
| SpeedReading.UpdateStatusSpec | services/speed-reading-service.js:91-105 | a missing session gives the null-session error; otherwise the active flag is flipped |
| SpeedReading.FirstActive | services/speed-reading-service.js:307 | the first active subscription, or None exactly when none is active |
| SpeedReading.RemainingPoints | services/speed-reading-service.js:299-317 | an unknown user gives "User not found"; otherwise the count of the first active subscription, or 0 |
| SpeedReading.SessionCostsOnePoint | services/speed-reading-service.js:19-44 | with an active first subscription holding p > 0 points, a session costs exactly one reported point |
| SpeedReading.MissingCountAllowsOneSession | services/speed-reading-service.js:19-44 | a subscription without a count pays for one session and leaves -1, so the next attempt is refused |
| SpeedReading.PointsReadFromDifferentEntries | services/speed-reading-service.js:305-313 | when the first subscription is inactive, sessions are paid from it while the remaining points come from the first active one, so they do not change |
| SpeedReading.AddStudentAppendsOne | services/speed-reading-service.js:57-65 | one student result is appended, keeping its name, numbers and per-question answers and carrying a date; nothing else about the session changes |
| SpeedReading.ToggleTwiceRestores | services/speed-reading-service.js:94-101 | two status updates give the session back |
| SpeedReading.SpeedReadingStore.CreateSession | services/speed-reading-service.js:8-52 | the result, users and sessions follow the create specification |
| SpeedReading.SpeedReadingStore.AddStudentResult | services/speed-reading-service.js:55-70 | the result and sessions follow the add specification |
| SpeedReading.SpeedReadingStore.UpdateSessionStatus | services/speed-reading-service.js:91-105 | the result and sessions follow the status specification |
| ContentPrompts.Genres | services/speed-reading-service.js:139-290 | the eight genres, in the order the branches test them |
| ContentPrompts.FindGenre | services/speed-reading-service.js:139-290 | the first branch whose genre name equals the request's, or None exactly when none does |
| ContentPrompts.ReplaceFirst | services/speed-reading-service.js:145 | only the first occurrence is replaced; a string without one is returned unchanged |
| ContentPrompts.PrefixKept | services/speed-reading-service.js:145 | the text before the first occurrence is kept, and the word follows it |
| ContentPrompts.LaterOccurrencesKept | services/speed-reading-service.js:145 | every later occurrence survives the replacement, shifted by the length difference |
| ContentPrompts.EducationalContent | services/speed-reading-service.js:108-296 | an unknown genre gets the fixed success text; otherwise the genre's template, Kyrgyz exactly when the language is "Кыргыз", with the genre's word in place of the first "Текст" |
| ContentPrompts.LanguagesShareTemplate | services/speed-reading-service.js:140-155 | the two languages of one genre differ only in the word substituted |
| AiPrompts.Escape | services/ai-prompt-service.js:41 | the escaped genre is never shorter than the input |
| AiPrompts.EscapeRoundTrip | services/ai-prompt-service.js:41 | escaping can be undone, so no character is lost or changed |
| AiPrompts.EscapePlain | services/ai-prompt-service.js:41 | a string without metacharacters is its own escape |
| AiPrompts.SkipSpaces | services/ai-prompt-service.js:42 | the result is a suffix that does not start with white space, and only white space is dropped |
| AiPrompts.SplitSpaces | services/ai-prompt-service.js:42 | a split always gives at least one piece |
| AiPrompts.SplitKeepsEverythingElse | services/ai-prompt-service.js:42 | splitting loses exactly the white space: the pieces laid end to end are the other characters |
| AiPrompts.PiecesHaveNoSpace | services/ai-prompt-service.js:42 | no piece holds white space |
| AiPrompts.EscapeKeepsSpaces | services/ai-prompt-service.js:41-42 | escaping neither adds nor removes white space |
| AiPrompts.LongWords | services/ai-prompt-service.js:43 | the kept words are exactly the ones longer than two characters |
| AiPrompts.PatternEmptyIff | services/ai-prompt-service.js:40-46 | the pattern is empty, and the fallback query skipped, exactly when no escaped word is longer than two characters |
| AiPrompts.WordsMeasuredAfterEscaping | services/ai-prompt-service.js:40-44 | word length counts the added backslashes: "a." yields the pattern `a\.`, while a two-letter word yields none |
| AiPrompts.LongFirstWordGivesPattern | services/ai-prompt-service.js:40-46 | a genre whose first word is longer than two characters and has nothing to escape gives a pattern, as every default genre does |
| AiPrompts.GenrePattern | services/ai-prompt-service.js:40-44 | `safeGenrePattern`: the escaped genre split on white space, words longer than two kept and joined by '|' (definition; PatternEmptyIff and WordsMeasuredAfterEscaping state its meaning) |
| AiPrompts.Select | services/ai-prompt-service.js:28-52 | the selected prompts are exactly the stored ones that qualify |
| AiPrompts.ExactPrompts | services/ai-prompt-service.js:28-32 | the exact query returns exactly the active prompts with that genre and language |
| AiPrompts.PatternPrompts | services/ai-prompt-service.js:48-52 | the fallback returns exactly the active prompts of the language whose genre matches the pattern |
| AiPrompts.PromptsByGenreAndLanguage | services/ai-prompt-service.js:23-62 | exact matches win; with none the regex fallback answers, unless the pattern is empty, when nothing is returned; every result is an active prompt of the language |
| AiPrompts.NoExactMatch | services/ai-prompt-service.js:28-32 | a store whose prompts all miss a key has no exact match for it |
| AiPrompts.DefaultKeysAsWritten | services/ai-prompt-service.js:127-390 | the 22 default genre and language pairs, as the source spells them |
| AiPrompts.DefaultKeys | services/ai-prompt-service.js:127-390 | the same 22 pairs with the Cyrillic spelling |
| AiPrompts.AsWrittenKeysMissRussianFairyTale | services/ai-prompt-service.js:130-142 | no key of the written list is the Russian fairy tale, because of the Latin 'k' |
| AiPrompts.AsWrittenMissesRussianFairyTale | services/ai-prompt-service.js:98-142 | after the initialization as written, the exact query for the Russian fairy tale finds nothing |
| AiPrompts.KeysHoldRussianFairyTaleOnce | services/ai-prompt-service.js:142 | in the corrected list one key, and only one, is the Russian fairy tale |
| AiPrompts.RussianFairyTaleFoundExactly | services/ai-prompt-service.js:23-62 | after the corrected initialization the exact query finds the Russian fairy-tale prompt, and only it, without using the pattern |
| AiPrompts.FairyTaleSharedWithTemplates | services/ai-prompt-service.js:130 | the first default's genre is the one the content templates test for the fairy tale |
| AiPrompts.PromptsFor | services/ai-prompt-service.js:127-390 | one active prompt for all class levels per key, with the shared requirements |
| AiPrompts.InitializeDefaultPrompts | services/ai-prompt-service.js:98-406 | after initialization the store holds exactly the 22 defaults as the code spells them, whatever it held before |
| AiPrompts.InitializeCorrectedPrompts | services/ai-prompt-service.js:98-406 | with the corrected spelling, the store holds exactly the 22 corrected defaults, whatever it held before |
| AiPrompts.InitializeIdempotent | services/ai-prompt-service.js:98-401 | initializing twice is initializing once |
| AiPrompts.ForceUpdatePrompts | services/ai-prompt-service.js:409-424 | a forced update gives the store that initialization as written gives |
| Books.Without | controllers/BookController.js:113-115 | every copy of the book is removed, and every other entry is kept as often as before |
| Books.Toggled | controllers/BookController.js:105-119 | a book on the shelf is removed, copies included; any other book is appended |
| Books.CastsToObjectId | controllers/BookController.js:93-98 | the ids `findById` can cast: 24 hexadecimal digits; any other makes it throw (definition) |
| Books.Canonical | controllers/BookController.js:105-107 | an id as a cast ObjectId prints it: the same length, hex letters in lower case |
| Books.CanonicalIdempotent | controllers/BookController.js:105-107 | the printed form of an id prints the same again |
| Books.Shelved | controllers/BookController.js:105-119 | the new shelf: entries equal to the id as sent are removed if any, else the book's stored id is appended (definition) |
| Books.ToggleOnCanonicalId | controllers/BookController.js:105-119 | for an id sent in lower case the new shelf is the toggle: membership flips |
| Books.UpperCaseIdAppendsAgain | controllers/BookController.js:105-119 | an id sent with an upper-case hex letter never equals a stored entry, so the book is appended again even when it is already on the shelf |
| Books.WithoutAbsent | controllers/BookController.js:113-115 | a shelf without the book is left as it is |
| Books.ToggleTwiceFromAbsent | controllers/BookController.js:105-119 | two toggles from a shelf without the book give the shelf back |
| Books.ToggleTwiceFromPresent | controllers/BookController.js:105-119 | two toggles from a shelf holding the book leave one copy at the end, so the round trip does not restore the position or the duplicates |
| Books.SetBookToUserSpec | controllers/BookController.js:83-131 | a missing id gives 400; a book id that does not cast to an ObjectId gives 500, an unknown book 404, then a user id that does not cast 500 and an unknown user 404, each with no change; otherwise only that user's shelf changes: entries equal to the id as sent are removed, or else the book's stored id is appended |
| Books.SetBookTwiceRestores | controllers/BookController.js:83-131 | the same request twice, with the book id in its stored lower-case form, from a shelf without the book gives the users back |
| Books.FilterByCategory | controllers/BookController.js:36-59 | with a category, exactly the found books of that category; without one, all of them |
| Books.FilterByCategoryAppend | controllers/BookController.js:47 | the filter keeps the order of the search results |
| Schedules.ParseParam | controllers/scheduleController.js:11-12 | an absent parameter reads as NaN; a present one is parsed as an integer |
| Schedules.ParseInt | controllers/scheduleController.js:11-12 | `parseInt(s, 10)`: leading white space, an optional sign, then the longest run of digits; no digit gives NaN (definition; ParseIntReadsDecimal, ParseZero and ParseLetters state its meaning) |
| Schedules.OrDefault | controllers/scheduleController.js:11-12 | NaN and 0 fall back to the default; any other number is kept |
| Schedules.CeilDiv | controllers/scheduleController.js:29 | the ceiling of the quotient, for either sign of the divisor |
| Schedules.CeilUnique | controllers/scheduleController.js:29 | the page count is the one r with (r − 1)·limit < total ≤ r·limit |
| Schedules.GetSchedulesPagination | controllers/scheduleController.js:8-40 | page and limit are the parsed values or 1 and 50; skip is (page − 1)·limit and pages is the ceiling of total over limit |
| Schedules.PaginationCoversCollection | controllers/scheduleController.js:8-40 | the reply's page count just covers the total, and for a positive page and limit its page starts inside the collection exactly when it is within the page count |
| Schedules.DefaultsApply | controllers/scheduleController.js:11-13 | absent, unparseable or zero parameters give page 1, 50 per page and skip 0 |
| Schedules.ParseIntReadsDecimal | controllers/scheduleController.js:11-12 | a decimal natural reads back as itself, and with a minus sign as its negation |
| Schedules.ParseZero | controllers/scheduleController.js:11-12 | "0" parses as 0, which then falls back to the default |
| Schedules.ParseLetters | controllers/scheduleController.js:11-12 | a parameter with no digits is NaN |
| Schedules.PagesCoverTotal | controllers/scheduleController.js:29 | the pages just cover the collection: the last page is not empty, and an empty collection has no pages |
| Schedules.SkipWithinPages | controllers/scheduleController.js:13-29 | for a positive page and limit, the skip is inside the collection exactly when the page is within the page count |
| Schedules.EveryDocumentOnAPage | controllers/scheduleController.js:13-29 | document k lies on page k / limit + 1, which is within the page count |
| Schedules.PageWindow | controllers/scheduleController.js:16-19 | a page returns at most limit documents |
| Schedules.WindowIsPiece | controllers/scheduleController.js:13-19 | page p is the p-th piece when the collection is cut into pages |
| Schedules.PiecesPartition | controllers/scheduleController.js:13-29 | the pieces laid end to end are the whole collection, and there are as many as the page count |
| Decimal.PadStart | models/timer-model.js:45-47 | the result is the string with zeros in front, up to the width |
| Decimal.PaddedValue | models/timer-model.js:45-47 | a padded decimal still reads back as its number |
| Strings.TrimStart | controllers/scheduleController.js:11-12 | the result is a suffix of the string; everything dropped is white space, and the result does not start with white space |
| Strings.TrimEnd | models/section-model.js:65-80 | the result is a prefix of the string; everything dropped is white space, and the result does not end with white space |
| Strings.Trim | models/section-model.js:65-80 | the result is the string with its leading white space and then its trailing white space taken off; it neither starts nor ends with white space, is empty exactly when the string is all white space, and a string with no white space at either end is kept as it is |
| Strings.TrimIsInnerSlice | models/section-model.js:65-80 | the trimmed string is the slice of the original between its leading and its trailing white space: nothing but white space is dropped, and only at the ends |
| Strings.Join | controllers/PaymentController.js:293 | `join` with a one-character separator: the parts with the separator between consecutive ones (definition; Strings.JoinSnoc and Strings.JoinCons state how it splits at either end) |

## Left out

- **Sending messages.** Socket emits, room broadcasts and HTTP responses are not modelled. Each handler's reply is its error code or status, and the state change is the new store.
- **Concurrency and time.**
  - The lock is a flag per room. The polling wait of `withRoomLock` (and its timeout error), interleaving, and the `setInterval` timers are left out.
  - Each sweep and sync tick is one atomic step at an instant `now`.
- **The database.**
  - Mongoose and MongoDB are values in memory.
  - Ids that the database assigns are parameters.
  - Mongoose timestamps, `populate` (which drops missing references) and schema casting other than the one noted are left out.
  - Room ids are compared as exact strings. `findById` casts an id with upper-case hex digits to the same ObjectId as its lower-case form and finds the stored room. The model looks rooms up by the id exactly as sent, so an id that differs from the stored one only in the case of its hex digits is treated as unknown. The book shelf does fold the case (Books.Canonical).
  - The unique index on `tasks.id` is modelled only as a clash between task ids of different sections (Diary.TaskIdHeldElsewhere). How MongoDB indexes a section with no tasks under that index is not modelled.
  - Fields the handlers set but `models/room.js` does not declare (version, isCompleted, lastActivity and others) are treated as stored. `isCompleted` is absent until a handler sets it, which the model writes as an `Option`.
- **Parsing the room payload.** `JSON.parse` of the created room's payload is a parameter: absent when the text does not parse.
- **Regex matching.** The regex match of the prompt fallback is a parameter `matches`. What is modelled is how the pattern is built: escape, split, keep long words.
- **Rounding and floating point.**
  - Points are whole numbers, so the current handler's `Math.round` is the identity.
  - Floating-point amounts (`pg_amount` as a fraction) are not modelled. `Math.floor(amount / 5)` is on whole numbers.
- **Payment gateway I/O.**
  - MD5, the axios calls and XML parsing are not part of this model; nor are `createPayment` and `getStatusPayment`.
  - What is modelled is the exact pre-image the signature is computed over, which these operations send.
  - `.toString()` on an unset merchant id, which throws, is not modelled; the merchant id is a string.
- **Payment.SortKeys**: orders strings by character code, as the default sort compares UTF-16 units. It does not model surrogate pairs (characters outside the Basic Multilingual Plane).
- **Payment.NamesDistinct**: assumes fewer than 1000 fields share a prefix. Past that a four-digit suffix could collide with another name; no request the code builds comes close.
- **Trimming.** Paths declared with `trim: true` (section title, letter and colour, task title, player nickname) are stored trimmed, as `Strings.Trim` defines. White space is the ECMAScript white space and line terminator set of `Strings.IsSpace`.
- **Object.values order.** `Payment.SortKeys` sorts the field names, and the signature lists the values in that order. JavaScript lists integer-like keys first whatever their insertion order; every name the code builds starts with "pg_", so no such key occurs and the model does not handle the case.
- **Services not in the core.** Timer duration text written to the session by `toggleTimer` (`duration`), `getUserSessions`, `getSessionById`, `getSchedulesByDate`, the schedule stats, and the other controllers (users, categories, products and the other AI routes) are not part of this model.
- **handleRequestServerTime and registerClient.** They only reply with the clock or log, and change no state; they are left out.
- **Books.SetBookToUserSpec**: takes an ObjectId to be exactly 24 hex digits. Older BSON releases also cast a 12-character string as raw bytes; that form is not modelled.
- **Schedules.ParseParam**: models a query parameter as one string. A repeated parameter (an array) is not modelled.
- **Schedules.PageWindow**: models only a positive page and limit. MongoDB's rejection of a negative skip or limit is not modelled.
- **RoomServer.Server.SyncTick**: requires the room to be under sync. A tick for a room whose interval was dropped cannot happen in the code, because the interval is cleared first.
- **TimerServiceModel.TimerService.ToggleTimer**: does not model the formatted `duration` written to the session.
- **TimerServiceModel.TimerService.CreateTimer**: appends a second timer for a session that already has one, as the code does; lookups then find the first.

Behaviour the code has that a reader might not expect. The model follows the code in each case.

- Taps are not deduplicated by `requestId` (GameHandlers.TapTwiceScoresTwice).
- `startGame` has no lobby check (RoomHandlers.RestartRewindsRunningRoom).
- A completed room can still be advanced (GameHandlers.CompletedRoomCanStillAdvance).
- The room state is a set of flags (`isJoin`, `isCompleted`, `isStaleGame`), not one state value.
- `hasAnswered` is never reset when a new question starts.
- Reconnection keeps `lastDisconnectTime`.
- NOT_IN_ROOM goes out without an error code.
- A room made by `createRoom` has no `isCompleted` field until it ends, so the stale sweep and the statistics, which ask for `isCompleted: false`, never see it (Monitoring.StartedRoomNeverSwept).

## Findings

| source | as written | input that shows it | evidently intended | confidence | as-written member | corrected member |
|---|---|---|---|---|---|---|
| services/ai-prompt-service.js:142 | "кызыkтуу" in the Russian fairy tale's genre name has a Latin `k`, so the stored genre differs from the Cyrillic name that line 130 and the speed-reading templates use | query genre "Жомок (Фантазияга негизделген кызыктуу окуялар.)", language "Русский": the exact query finds nothing and only the regex fallback can answer | the Cyrillic `к`, as in every other mention of the genre | not executed | AiPrompts.AsWrittenMissesRussianFairyTale | AiPrompts.RussianFairyTaleFoundExactly |

The model keeps both key lists:

- `AiPrompts.DefaultKeysAsWritten` follows the code as written.
- `AiPrompts.DefaultKeys` is the corrected list.
- `AiPrompts.InitializeDefaultPrompts` and `AiPrompts.ForceUpdatePrompts` use the list as written. `AiPrompts.InitializeCorrectedPrompts` uses the corrected one.
