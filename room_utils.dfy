/** socket/utils/roomUtils.js: the room-id check, the guarded lookup, the version bump
    and the predicate that stops a room's periodic sync. The lock and sync tables
    themselves are fields of RoomServer.Server. */
module RoomUtils {
  import opened Wrappers
  import opened RoomTypes

  predicate IsHexChar(c: char) {
    ('0' <= c <= '9') || ('a' <= c <= 'f') || ('A' <= c <= 'F')
  }

  /** The characters of s are all hexadecimal digits. */
  function AllHex(s: string): (b: bool)
    ensures b <==> forall i :: 0 <= i < |s| ==> IsHexChar(s[i])
  {
    if s == [] then true else IsHexChar(s[0]) && AllHex(s[1..])
  }

  /** `roomId && roomId.match(/^[0-9a-fA-F]{24}$/)`: a MongoDB ObjectId in hex form. */
  function IsValidRoomId(id: string): (b: bool)
    ensures b <==> |id| == 24 && forall i :: 0 <= i < |id| ==> IsHexChar(id[i])
    ensures b ==> id != ""
  {
    id != "" && |id| == 24 && AllHex(id)
  }

  /** `getRoomById`: null for a malformed id without looking it up, else the lookup. */
  function GetRoomById(rooms: map<string, Room>, id: string): (r: Option<Room>)
    ensures !IsValidRoomId(id) ==> r == None
    ensures IsValidRoomId(id) ==> (r.Some? <==> id in rooms)
    ensures r.Some? ==> id in rooms && r.value == rooms[id]
  {
    if !IsValidRoomId(id) then None
    else if id in rooms then Some(rooms[id])
    else None
  }

  /** The room as `updateRoomState` saves it: version one higher, activity refreshed. */
  function Bumped(r: Room, now: int): (b: Room)
    ensures b.version == r.version + 1 && b.lastActivity == Some(now)
    ensures b.(version := r.version, lastActivity := r.lastActivity) == r
  {
    r.(version := r.version + 1, lastActivity := Some(now))
  }

  /** `updateRoomState` on the store: bump the room if it exists, otherwise nothing. */
  function UpdateRoomState(rooms: map<string, Room>, id: string, now: int): (m: map<string, Room>)
    ensures m.Keys == rooms.Keys
    ensures id in rooms ==> m == rooms[id := Bumped(rooms[id], now)]
    ensures id !in rooms ==> m == rooms
  {
    if id in rooms then rooms[id := Bumped(rooms[id], now)] else rooms
  }

  /** The periodic sync of a room stops once the room is gone, empty or completed. */
  function ShouldStopSync(r: Option<Room>): (stop: bool)
    ensures stop <==> (r == None || |r.value.players| == 0 || r.value.isCompleted == Some(true))
  {
    match r
    case None => true
    case Some(room) => |room.players| == 0 || room.isCompleted == Some(true)
  }

  /** One firing of a room's sync interval: either it stops (the room is gone, empty or
      completed), or it refreshes `lastActivity` without a version bump. */
  datatype SyncOutcome = SyncOutcome(stop: bool, rooms: map<string, Room>)

  function SyncTickSpec(rooms: map<string, Room>, roomId: string, now: int): (o: SyncOutcome)
    ensures o.stop <==> ShouldStopSync(if roomId in rooms then Some(rooms[roomId]) else None)
    ensures o.rooms.Keys == rooms.Keys
    ensures o.stop ==> o.rooms == rooms
    ensures !o.stop ==> o.rooms[roomId].lastActivity == Some(now)
    ensures !o.stop ==> o.rooms[roomId].(lastActivity := rooms[roomId].lastActivity) == rooms[roomId]
    ensures forall k :: k in rooms && k != roomId ==> o.rooms[k] == rooms[k]
  {
    var found := if roomId in rooms then Some(rooms[roomId]) else None;
    if ShouldStopSync(found) then SyncOutcome(true, rooms)
    else SyncOutcome(false, rooms[roomId := rooms[roomId].(lastActivity := Some(now))])
  }

  /** A bump changes nothing the room invariant depends on. */
  lemma BumpedWellFormed(r: Room, now: int)
    requires WellFormed(r)
    ensures WellFormed(Bumped(r, now))
  {
  }

  lemma SyncTickPreservesWellFormed(rooms: map<string, Room>, roomId: string, now: int)
    requires AllWellFormed(rooms)
    ensures AllWellFormed(SyncTickSpec(rooms, roomId, now).rooms)
  {
  }
}
