/** The room registry: rooms of at most MAX_PLAYERS_PER_ROOM players, joined
    by auto-assignment through a cached "current" room, started at most once,
    and reclaimed when they empty out before starting or stay empty too long. */
module RoomRegistry {
  import opened Types
  import opened OrderedMaps

  const MAX_PLAYERS_PER_ROOM := 10
  const MIN_PLAYERS_TO_START := 1
  /** Empty rooms older than this (one hour, in milliseconds) are reclaimed. */
  const ONE_HOUR := 60 * 60 * 1000

  /** The fresh record `createRoom` builds. */
  function NewRoom(roomId: Id, now: int): (room: Room)
    ensures room.roomId == roomId && room.playerIds == [] && room.createdAt == now
    ensures room.maxPlayers == MAX_PLAYERS_PER_ROOM && room.minPlayers == MIN_PLAYERS_TO_START
    ensures !room.isGameStarted && room.gameState.None?
  {
    Room(roomId, [], MAX_PLAYERS_PER_ROOM, MIN_PLAYERS_TO_START, false, None, now)
  }

  /** A room auto-assignment may send a player to: not full and not started. */
  predicate Eligible(room: Room)
  {
    |room.playerIds| < room.maxPlayers && !room.isGameStarted
  }

  /** The membership check comes after the capacity check: a full room turns
      everybody away, members included. */
  predicate JoinAccepted(room: Room)
  {
    |room.playerIds| < room.maxPlayers
  }

  /** The room after `addPlayerToRoom`: the player appended once, unless the
      room is full or the player is already there. */
  function AfterJoin(room: Room, playerId: Id): (r: Room)
  {
    if !JoinAccepted(room) || playerId in room.playerIds then room
    else room.(playerIds := room.playerIds + [playerId])
  }

  /** The room after `removePlayerFromRoom` filtered its roster. */
  function AfterLeave(room: Room, playerId: Id): (r: Room)
  {
    room.(playerIds := Without(room.playerIds, playerId))
  }

  /** The facts every room record keeps. */
  ghost predicate RoomInvariant(room: Room)
  {
    && room.maxPlayers == MAX_PLAYERS_PER_ROOM
    && room.minPlayers == MIN_PLAYERS_TO_START
    && |room.playerIds| <= room.maxPlayers
    && NoDuplicates(room.playerIds)
  }

  /** Joining keeps the roster within capacity and free of repeats, and the
      player is on the roster afterwards exactly when the room accepted them. */
  lemma JoinKeepsRoomInvariant(room: Room, playerId: Id)
    requires RoomInvariant(room)
    ensures RoomInvariant(AfterJoin(room, playerId))
    ensures playerId in AfterJoin(room, playerId).playerIds <==>
              JoinAccepted(room) || playerId in room.playerIds
    ensures forall p :: p != playerId ==> (p in AfterJoin(room, playerId).playerIds <==> p in room.playerIds)
  {
  }

  /** Joining twice is the same as joining once. */
  lemma JoinIdempotent(room: Room, playerId: Id)
    requires RoomInvariant(room)
    ensures AfterJoin(AfterJoin(room, playerId), playerId) == AfterJoin(room, playerId)
  {
  }

  /** A newcomer who joins and then leaves leaves the roster as it was. */
  lemma LeaveUndoesJoin(room: Room, playerId: Id)
    requires playerId !in room.playerIds
    ensures AfterLeave(AfterJoin(room, playerId), playerId) == room
  {
    WithoutAbsent(room.playerIds, playerId);
    if JoinAccepted(room) {
      WithoutAppended(room.playerIds, playerId);
    }
  }

  /** Filtering out an absent id changes nothing. */
  lemma {:induction false} WithoutAbsent(ids: seq<Id>, k: Id)
    requires k !in ids
    ensures Without(ids, k) == ids
  {
    if |ids| > 0 {
      WithoutAbsent(ids[1..], k);
      assert ids == [ids[0]] + ids[1..];
    }
  }

  /** Filtering `k` out of `ids + [k]` gives back `ids` when `k` was absent. */
  lemma {:induction false} WithoutAppended(ids: seq<Id>, k: Id)
    requires k !in ids
    ensures Without(ids + [k], k) == ids
  {
    if |ids| == 0 {
      assert Without([k], k) == Without([], k);
    } else {
      assert (ids + [k])[1..] == ids[1..] + [k];
      WithoutAppended(ids[1..], k);
      assert ids == [ids[0]] + ids[1..];
    }
  }

  /** Leaving keeps the room invariant and takes every occurrence of the player out. */
  lemma LeaveKeepsRoomInvariant(room: Room, playerId: Id)
    requires RoomInvariant(room)
    ensures RoomInvariant(AfterLeave(room, playerId))
    ensures playerId !in AfterLeave(room, playerId).playerIds
    ensures forall p :: p != playerId ==> (p in AfterLeave(room, playerId).playerIds <==> p in room.playerIds)
  {
    WithoutShorter(room.playerIds, playerId);
  }

  lemma {:induction false} WithoutShorter(ids: seq<Id>, k: Id)
    ensures |Without(ids, k)| <= |ids|
  {
    if |ids| > 0 {
      WithoutShorter(ids[1..], k);
    }
  }

  /** A room `cleanupEmptyRooms` reclaims at time `now`. */
  predicate Stale(room: Room, now: int)
  {
    |room.playerIds| == 0 && now - room.createdAt > ONE_HOUR
  }

  /** The keys whose rooms are not stale at `now`, in their order: the key
      order `Map.delete` leaves behind after the clean-up. */
  function FreshKeys(keys: seq<Id>, entries: map<Id, Room>, now: int): (r: seq<Id>)
    ensures |r| <= |keys|
    ensures forall k :: k in r <==> k in keys && !StaleIn(entries, k, now)
  {
    if |keys| == 0 then []
    else
      var k := keys[|keys| - 1];
      FreshKeys(keys[..|keys| - 1], entries, now) + (if StaleIn(entries, k, now) then [] else [k])
  }

  /** The room stored under `k` is stale at `now`. */
  predicate StaleIn(entries: map<Id, Room>, k: Id, now: int)
  {
    k in entries && Stale(entries[k], now)
  }

  /** One step of `cleanupEmptyRooms`: the room under `id` is deleted if it is stale. */
  function DropStale(rooms: OrderedMap<Room>, id: Id, now: int): (r: OrderedMap<Room>)
    requires rooms.Valid()
    ensures r.Valid()
  {
    if StaleIn(rooms.entries, id, now) then rooms.Remove(id) else rooms
  }

  /** `DropStale` for each id of `ids`, in turn. */
  function DropStaleAll(rooms: OrderedMap<Room>, ids: seq<Id>, now: int): (r: OrderedMap<Room>)
    requires rooms.Valid()
    ensures r.Valid()
  {
    if |ids| == 0 then rooms
    else DropStale(DropStaleAll(rooms, ids[..|ids| - 1], now), ids[|ids| - 1], now)
  }

  /** Going through the keys in order and deleting each stale room deletes
      exactly the stale rooms, leaves every other room as it was, and keeps
      the remaining keys in their order. */
  lemma {:induction false} DropStaleAllKeys(rooms: OrderedMap<Room>, now: int)
    requires rooms.Valid()
    ensures var r := DropStaleAll(rooms, rooms.keys, now);
            && (forall id :: id in r.entries <==> id in rooms.entries && !StaleIn(rooms.entries, id, now))
            && (forall id :: id in r.entries ==> r.entries[id] == rooms.entries[id])
            && r.keys == FreshKeys(rooms.keys, rooms.entries, now)
  {
    DropStalePrefixEntries(rooms, |rooms.keys|, now);
    DropStalePrefixKeys(rooms, |rooms.keys|, now);
    assert rooms.keys[..|rooms.keys|] == rooms.keys;
    assert rooms.keys[|rooms.keys|..] == [];
  }

  /** `DropStaleAll` over the first `i` keys leaves the kept part of that
      prefix, in order, followed by the keys not yet visited. */
  lemma {:induction false} DropStalePrefixKeys(rooms: OrderedMap<Room>, i: int, now: int)
    requires rooms.Valid()
    requires 0 <= i <= |rooms.keys|
    ensures DropStaleAll(rooms, rooms.keys[..i], now).keys
            == FreshKeys(rooms.keys[..i], rooms.entries, now) + rooms.keys[i..]
  {
    if i == 0 {
      assert rooms.keys[..0] == [];
      assert rooms.keys[0..] == rooms.keys;
    } else {
      var keys := rooms.keys;
      var k := keys[i - 1];
      var prev := DropStaleAll(rooms, keys[..i - 1], now);
      assert keys[..i][..i - 1] == keys[..i - 1] && keys[..i][i - 1] == k;
      assert DropStaleAll(rooms, keys[..i], now) == DropStale(prev, k, now);
      DropStalePrefixKeys(rooms, i - 1, now);
      NextStillStored(rooms, i - 1, now);
      OccursOnceAt(keys, i - 1);
      FreshKeysStep(keys, i - 1, rooms.entries, now);
    }
  }

  /** The next key's room has not been touched by the steps before it. */
  lemma {:induction false} NextStillStored(rooms: OrderedMap<Room>, i: int, now: int)
    requires rooms.Valid()
    requires 0 <= i < |rooms.keys|
    ensures StaleIn(DropStaleAll(rooms, rooms.keys[..i], now).entries, rooms.keys[i], now)
            == StaleIn(rooms.entries, rooms.keys[i], now)
  {
    DropStalePrefixEntries(rooms, i, now);
    OccursOnceAt(rooms.keys, i);
  }

  /** `DropStaleAll` over the first `i` keys deletes exactly the stale rooms
      among them and leaves every other room as it was. */
  lemma {:induction false} DropStalePrefixEntries(rooms: OrderedMap<Room>, i: int, now: int)
    requires rooms.Valid()
    requires 0 <= i <= |rooms.keys|
    ensures var r := DropStaleAll(rooms, rooms.keys[..i], now);
            && (forall id :: id in r.entries <==>
                  id in rooms.entries && !(id in rooms.keys[..i] && StaleIn(rooms.entries, id, now)))
            && (forall id :: id in r.entries ==> r.entries[id] == rooms.entries[id])
  {
    if i > 0 {
      var keys := rooms.keys;
      DropStalePrefixEntries(rooms, i - 1, now);
      assert keys[..i][..i - 1] == keys[..i - 1];
      assert keys[..i] == keys[..i - 1] + [keys[i - 1]];
    }
  }

  /** Deleting a key that occurs once, between `front` and `back`, closes the gap. */
  lemma {:induction false} WithoutMiddle(front: seq<Id>, k: Id, back: seq<Id>)
    requires k !in front && k !in back
    ensures Without(front + [k] + back, k) == front + back
  {
    var all := front + [k] + back;
    if |front| == 0 {
      assert all == [k] + back && all[0] == k && all[1..] == back;
      assert Without(all, k) == Without(back, k);
      WithoutAbsent(back, k);
      assert front + back == back;
    } else {
      var rest := front[1..] + [k] + back;
      assert all[0] == front[0] && all[1..] == rest;
      assert front[0] != k;
      assert Without(all, k) == [front[0]] + Without(rest, k);
      WithoutMiddle(front[1..], k, back);
      assert front + back == [front[0]] + (front[1..] + back);
    }
  }

  /** One step of the clean-up on the key order: deleting the next key, if its
      room is stale, extends the kept prefix by that key or by nothing. */
  lemma {:induction false} FreshKeysStep(keys: seq<Id>, i: int, entries: map<Id, Room>, now: int)
    requires 0 <= i < |keys|
    requires keys[i] !in keys[..i] && keys[i] !in keys[i + 1..]
    ensures var cur := FreshKeys(keys[..i], entries, now) + keys[i..];
            (if StaleIn(entries, keys[i], now) then Without(cur, keys[i]) else cur)
            == FreshKeys(keys[..i + 1], entries, now) + keys[i + 1..]
  {
    var k := keys[i];
    var front := FreshKeys(keys[..i], entries, now);
    FreshKeysSnoc(keys, i, entries, now);
    assert keys[i..] == [k] + keys[i + 1..];
    DropNext(front, k, keys[i + 1..], StaleIn(entries, k, now));
  }

  /** Deleting (or keeping) the key right after the kept prefix. */
  lemma {:induction false} DropNext(front: seq<Id>, k: Id, back: seq<Id>, drop: bool)
    requires k !in front && k !in back
    ensures (if drop then Without(front + ([k] + back), k) else front + ([k] + back))
            == front + (if drop then [] else [k]) + back
  {
    if drop {
      WithoutMiddle(front, k, back);
      assert front + [k] + back == front + ([k] + back);
      assert front + [] == front;
    } else {
      assert front + ([k] + back) == (front + [k]) + back;
    }
  }

  /** Extending the prefix by one key extends the kept keys by it, or by nothing. */
  lemma {:induction false} FreshKeysSnoc(keys: seq<Id>, i: int, entries: map<Id, Room>, now: int)
    requires 0 <= i < |keys|
    ensures FreshKeys(keys[..i + 1], entries, now)
            == FreshKeys(keys[..i], entries, now) + (if StaleIn(entries, keys[i], now) then [] else [keys[i]])
  {
    assert keys[..i + 1][..i] == keys[..i];
  }

  /** In a repeat-free sequence, the key at `i` occurs neither before nor after `i`. */
  lemma {:induction false} OccursOnceAt(keys: seq<Id>, i: int)
    requires NoDuplicates(keys) && 0 <= i < |keys|
    ensures keys[i] !in keys[..i] && keys[i] !in keys[i + 1..]
  {
    forall j | 0 <= j < i ensures keys[..i][j] != keys[i] {
      assert keys[..i][j] == keys[j];
    }
    var back := keys[i + 1..];
    forall j | 0 <= j < |back| ensures back[j] != keys[i] {
      assert back[j] == keys[i + 1 + j];
    }
  }

  /** The rooms with at least one player, in the given order. */
  function ActiveRooms(rooms: seq<Room>): (r: seq<Room>)
    ensures |r| <= |rooms|
    ensures forall room :: room in r <==> room in rooms && |room.playerIds| > 0
  {
    if |rooms| == 0 then []
    else (if |rooms[0].playerIds| > 0 then [rooms[0]] else []) + ActiveRooms(rooms[1..])
  }

  class RoomManager {
    /** The rooms by id, in creation order. */
    var rooms: OrderedMap<Room>
    /** The room auto-assignment tries first. */
    var currentAutoAssignRoom: Option<Id>

    ghost predicate Valid()
      reads this
    {
      && rooms.Valid()
      && (forall id :: id in rooms.entries ==> rooms.entries[id].roomId == id)
      && (forall id :: id in rooms.entries ==> RoomInvariant(rooms.entries[id]))
      && (currentAutoAssignRoom.Some? ==>
            && currentAutoAssignRoom.value in rooms.entries
            && !rooms.entries[currentAutoAssignRoom.value].isGameStarted)
    }

    /** The cached room is set (a non-empty id) and can still take a player. */
    predicate CachedEligible()
      reads this
    {
      && currentAutoAssignRoom.Some? && currentAutoAssignRoom.value != ""
      && currentAutoAssignRoom.value in rooms.entries
      && Eligible(rooms.entries[currentAutoAssignRoom.value])
    }

    constructor ()
      ensures Valid()
      ensures rooms == Empty() && currentAutoAssignRoom.None?
    {
      rooms := Empty();
      currentAutoAssignRoom := None;
    }

    /** Registers an empty, unstarted room under the fresh id. */
    method CreateRoom(roomId: Id, now: int) returns (room: Room)
      requires Valid()
      requires roomId !in rooms.entries
      modifies this
      ensures Valid()
      ensures room == NewRoom(roomId, now)
      ensures rooms == old(rooms).Put(roomId, room)
      ensures currentAutoAssignRoom == old(currentAutoAssignRoom)
    {
      room := NewRoom(roomId, now);
      rooms := rooms.Put(roomId, room);
    }

    function GetRoom(roomId: Id): (r: Option<Room>)
      reads this
      ensures r.Some? <==> roomId in rooms.entries
      ensures r.Some? ==> r.value == rooms.entries[roomId]
    {
      if roomId in rooms.entries then Some(rooms.entries[roomId]) else None
    }

    /** The cached room if it can still take a player; otherwise the first such
        room in creation order, which becomes the cached one; otherwise a new
        room under `freshId`, which becomes the cached one. */
    method FindOrCreateAvailableRoom(freshId: Id, now: int) returns (room: Room)
      requires Valid()
      requires freshId !in rooms.entries
      modifies this
      ensures Valid()
      ensures room.roomId in rooms.entries && rooms.entries[room.roomId] == room
      ensures Eligible(room)
      ensures currentAutoAssignRoom == Some(room.roomId)
      ensures old(CachedEligible()) ==> room.roomId == old(currentAutoAssignRoom).value && rooms == old(rooms)
      ensures !old(CachedEligible()) && (exists i :: 0 <= i < |old(rooms.keys)| && Eligible(old(rooms.entries)[old(rooms.keys)[i]])) ==>
                && rooms == old(rooms)
                && exists i :: 0 <= i < |old(rooms.keys)| && old(rooms.keys)[i] == room.roomId
                     && Eligible(old(rooms.entries)[room.roomId])
                     && forall j :: 0 <= j < i ==> !Eligible(old(rooms.entries)[old(rooms.keys)[j]])
      ensures !old(CachedEligible()) && (forall i :: 0 <= i < |old(rooms.keys)| ==> !Eligible(old(rooms.entries)[old(rooms.keys)[i]])) ==>
                room == NewRoom(freshId, now) && rooms == old(rooms).Put(freshId, room)
    {
      if currentAutoAssignRoom.Some? && currentAutoAssignRoom.value != "" {
        var cached := currentAutoAssignRoom.value;
        if cached in rooms.entries && Eligible(rooms.entries[cached]) {
          return rooms.entries[cached];
        }
      }
      var found := FirstEligible();
      if found.Some? {
        room := found.value;
      } else {
        room := CreateRoom(freshId, now);
      }
      currentAutoAssignRoom := Some(room.roomId);
    }

    /** The scan of `findOrCreateAvailableRoom`: the first room, in creation
        order, that can take a player. */
    method FirstEligible() returns (found: Option<Room>)
      requires Valid()
      ensures found.Some? ==>
                && found.value.roomId in rooms.entries && rooms.entries[found.value.roomId] == found.value
                && Eligible(found.value)
                && exists i :: 0 <= i < |rooms.keys| && rooms.keys[i] == found.value.roomId
                     && forall j :: 0 <= j < i ==> !Eligible(rooms.entries[rooms.keys[j]])
      ensures found.None? <==> forall i :: 0 <= i < |rooms.keys| ==> !Eligible(rooms.entries[rooms.keys[i]])
    {
      var values := rooms.Values();
      var i := 0;
      while i < |values|
        invariant 0 <= i <= |values| == |rooms.keys|
        invariant forall j :: 0 <= j < i ==> !Eligible(rooms.entries[rooms.keys[j]])
      {
        var room := values[i];
        assert room == rooms.entries[rooms.keys[i]];
        if Eligible(room) {
          assert room.roomId == rooms.keys[i];
          return Some(room);
        }
        i := i + 1;
      }
      return None;
    }

    /** False for an unknown or full room; true, without a second copy, for a
        member; otherwise appends the player and answers true. */
    method AddPlayerToRoom(roomId: Id, playerId: Id) returns (ok: bool)
      requires Valid()
      modifies this
      ensures Valid()
      ensures ok <==> roomId in old(rooms.entries) && JoinAccepted(old(rooms.entries[roomId]))
      ensures rooms.keys == old(rooms.keys)
      ensures roomId !in old(rooms.entries) ==> rooms == old(rooms)
      ensures roomId in old(rooms.entries) ==>
                rooms.entries == old(rooms.entries)[roomId := AfterJoin(old(rooms.entries[roomId]), playerId)]
      ensures currentAutoAssignRoom == old(currentAutoAssignRoom)
    {
      if roomId !in rooms.entries { return false; }
      var room := rooms.entries[roomId];
      JoinKeepsRoomInvariant(room, playerId);
      if |room.playerIds| >= room.maxPlayers { return false; }
      if playerId in room.playerIds { return true; }
      rooms := rooms.Put(roomId, room.(playerIds := room.playerIds + [playerId]));
      return true;
    }

    /** Takes every occurrence of the player off the roster; a room left empty
        before its game started is deleted, and the cache dropped if it named it. */
    method RemovePlayerFromRoom(roomId: Id, playerId: Id)
      requires Valid()
      modifies this
      ensures Valid()
      ensures roomId !in old(rooms.entries) ==> rooms == old(rooms) && currentAutoAssignRoom == old(currentAutoAssignRoom)
      ensures roomId in old(rooms.entries) ==>
                var left := AfterLeave(old(rooms.entries[roomId]), playerId);
                if |left.playerIds| == 0 && !left.isGameStarted then
                  && rooms == old(rooms).Remove(roomId)
                  && currentAutoAssignRoom == (if old(currentAutoAssignRoom) == Some(roomId) then None
                                               else old(currentAutoAssignRoom))
                else
                  && rooms.keys == old(rooms.keys)
                  && rooms.entries == old(rooms.entries)[roomId := left]
                  && currentAutoAssignRoom == old(currentAutoAssignRoom)
    {
      if roomId !in rooms.entries { return; }
      var room := rooms.entries[roomId];
      LeaveKeepsRoomInvariant(room, playerId);
      room := room.(playerIds := Without(room.playerIds, playerId));
      if |room.playerIds| == 0 && !room.isGameStarted {
        // the filtered record goes away with its entry
        rooms := rooms.Remove(roomId);
        if currentAutoAssignRoom == Some(roomId) {
          currentAutoAssignRoom := None;
        }
      } else {
        rooms := rooms.Put(roomId, room);
      }
    }

    /** The room exists, has at least its minimum of players, and has not started. */
    function CanStartGame(roomId: Id): (can: bool)
      reads this
      ensures can <==> && roomId in rooms.entries
                       && |rooms.entries[roomId].playerIds| >= rooms.entries[roomId].minPlayers
                       && !rooms.entries[roomId].isGameStarted
    {
      if roomId !in rooms.entries then false
      else |rooms.entries[roomId].playerIds| >= rooms.entries[roomId].minPlayers
           && !rooms.entries[roomId].isGameStarted
    }

    /** Marks the room started (for good) and stops auto-assigning to it. */
    method StartGame(roomId: Id)
      requires Valid()
      modifies this
      ensures Valid()
      ensures rooms.keys == old(rooms.keys)
      ensures roomId !in old(rooms.entries) ==> rooms == old(rooms) && currentAutoAssignRoom == old(currentAutoAssignRoom)
      ensures roomId in old(rooms.entries) ==>
                && rooms.entries == old(rooms.entries)[roomId := old(rooms.entries[roomId]).(isGameStarted := true)]
                && currentAutoAssignRoom == (if old(currentAutoAssignRoom) == Some(roomId) then None
                                             else old(currentAutoAssignRoom))
      ensures !CanStartGame(roomId)
    {
      if roomId !in rooms.entries { return; }
      var room := rooms.entries[roomId];
      rooms := rooms.Put(roomId, room.(isGameStarted := true));
      if currentAutoAssignRoom == Some(roomId) {
        currentAutoAssignRoom := None;
      }
    }

    /** Attaches the game (by its id) to the room; an unknown room changes nothing. */
    method SetGameState(roomId: Id, gameId: Id)
      requires Valid()
      modifies this
      ensures Valid()
      ensures rooms.keys == old(rooms.keys)
      ensures roomId !in old(rooms.entries) ==> rooms == old(rooms)
      ensures roomId in old(rooms.entries) ==>
                rooms.entries == old(rooms.entries)[roomId := old(rooms.entries[roomId]).(gameState := Some(gameId))]
      ensures currentAutoAssignRoom == old(currentAutoAssignRoom)
    {
      if roomId !in rooms.entries { return; }
      var room := rooms.entries[roomId];
      rooms := rooms.Put(roomId, room.(gameState := Some(gameId)));
    }

    /** All rooms, in creation order. */
    function GetAllRooms(): (all: seq<Room>)
      reads this
      requires Valid()
      ensures |all| == |rooms.keys|
      ensures forall i :: 0 <= i < |all| ==> all[i] == rooms.entries[rooms.keys[i]]
    {
      rooms.Values()
    }

    /** The rooms with at least one player. */
    function GetActiveRooms(): (active: seq<Room>)
      reads this
      requires Valid()
      ensures forall room :: room in active <==>
                (exists id :: id in rooms.entries && rooms.entries[id] == room) && |room.playerIds| > 0
    {
      var all := GetAllRooms();
      assert forall room :: room in all <==> exists id :: id in rooms.entries && rooms.entries[id] == room by {
        forall room | (exists id :: id in rooms.entries && rooms.entries[id] == room) ensures room in all {
          var id :| id in rooms.entries && rooms.entries[id] == room;
          var i :| 0 <= i < |rooms.keys| && rooms.keys[i] == id;
          assert all[i] == room;
        }
      }
      ActiveRooms(all)
    }

    /** Deletes exactly the rooms that are empty and more than an hour old at
        `now` (started or not), dropping the cache if it named one of them; the
        rooms kept stay as they were, in their order. */
    method CleanupEmptyRooms(now: int)
      requires Valid()
      modifies this
      ensures Valid()
      ensures forall id :: id in rooms.entries <==> id in old(rooms.entries) && !Stale(old(rooms.entries[id]), now)
      ensures forall id :: id in rooms.entries ==> rooms.entries[id] == old(rooms.entries[id])
      ensures rooms.keys == FreshKeys(old(rooms.keys), old(rooms.entries), now)
      ensures currentAutoAssignRoom ==
                (if old(currentAutoAssignRoom).Some? && Stale(old(rooms.entries[currentAutoAssignRoom.value]), now)
                 then None else old(currentAutoAssignRoom))
    {
      var keys := rooms.keys;
      ghost var rooms0 := rooms;
      ghost var cache0 := currentAutoAssignRoom;
      var i := 0;
      while i < |keys|
        invariant 0 <= i <= |keys| && keys == rooms0.keys && rooms0.Valid()
        invariant Valid()
        invariant rooms == DropStaleAll(rooms0, keys[..i], now)
        invariant currentAutoAssignRoom ==
                    (if cache0.Some? && cache0.value !in rooms.entries then None else cache0)
      {
        DropIfStale(keys[i], now);
        assert keys[..i + 1][..i] == keys[..i];
        i := i + 1;
      }
      DropStaleAllKeys(rooms0, now);
      assert keys[..i] == keys;
    }

    /** One step of the clean-up: deletes the room if it is stale. */
    method DropIfStale(roomId: Id, now: int)
      requires Valid()
      modifies this
      ensures Valid()
      ensures rooms == DropStale(old(rooms), roomId, now)
      ensures currentAutoAssignRoom ==
                (if old(currentAutoAssignRoom) == Some(roomId) && StaleIn(old(rooms.entries), roomId, now)
                 then None else old(currentAutoAssignRoom))
    {
      if roomId in rooms.entries && Stale(rooms.entries[roomId], now) {
        rooms := rooms.Remove(roomId);
        if currentAutoAssignRoom == Some(roomId) {
          currentAutoAssignRoom := None;
        }
      }
    }
  }
}
