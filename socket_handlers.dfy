/** The phase driver: what each connection event and each timer callback asks
    of the three registries. Broadcasts are left out except where their content
    is a result of the core (the answer reveal and the game-over announcement);
    each setTimeout / setInterval callback is a method of its own. */
module SocketHandling {
  import opened Types
  import opened OrderedMaps
  import Scoring
  import GameManagement
  import PlayerRegistry
  import RoomRegistry

  const GAME_START_COUNTDOWN_SECONDS := 10

  /** The payloads of the core that a handler broadcasts. */
  datatype Emitted =
    | Nothing
    | AnswerRevealed(correctAnswer: DoorOption, scoreUpdates: seq<ScoreUpdate>, leaderboard: seq<LeaderboardEntry>)
    | GameOverAnnounced(finalLeaderboard: seq<LeaderboardEntry>, winner: Option<LeaderboardEntry>)

  /** The players after `updatePlayerScore` was called for each update in turn. */
  function ApplyScores(players: map<Id, Player>, updates: seq<ScoreUpdate>): (r: map<Id, Player>)
    ensures r.Keys == players.Keys
  {
    if |updates| == 0 then players
    else
      var before := ApplyScores(players, updates[..|updates| - 1]);
      var u := updates[|updates| - 1];
      if u.playerId in before then
        before[u.playerId := PlayerRegistry.Scored(before[u.playerId], u.scoreGained, u.isCorrect)]
      else before
  }

  /** Overwriting a key twice keeps only the second value. */
  lemma UpdateTwice<V>(m: map<Id, V>, k: Id, x: V, y: V)
    ensures m[k := x][k := y] == m[k := y]
  {
  }

  /** No two updates are for the same player. */
  ghost predicate DistinctUpdates(updates: seq<ScoreUpdate>)
  {
    forall i, j :: 0 <= i < j < |updates| ==> updates[i].playerId != updates[j].playerId
  }

  /** With one update per player, each updated player gets exactly its own
      update, and every other player is untouched. */
  lemma {:induction false} ApplyScoresEffect(players: map<Id, Player>, updates: seq<ScoreUpdate>)
    requires DistinctUpdates(updates)
    ensures forall k :: 0 <= k < |updates| && updates[k].playerId in players ==>
              ApplyScores(players, updates)[updates[k].playerId]
              == PlayerRegistry.Scored(players[updates[k].playerId], updates[k].scoreGained, updates[k].isCorrect)
    ensures forall id :: id in players && (forall k :: 0 <= k < |updates| ==> updates[k].playerId != id) ==>
              ApplyScores(players, updates)[id] == players[id]
  {
    if |updates| > 0 {
      var n := |updates| - 1;
      var prefix := updates[..n];
      var u := updates[n];
      var before := ApplyScores(players, prefix);
      var after := ApplyScores(players, updates);
      assert DistinctUpdates(prefix);
      ApplyScoresEffect(players, prefix);
      forall k | 0 <= k < n
        ensures prefix[k] == updates[k] && prefix[k].playerId != u.playerId
      {
      }
      forall k | 0 <= k < |updates| && updates[k].playerId in players
        ensures after[updates[k].playerId]
                == PlayerRegistry.Scored(players[updates[k].playerId], updates[k].scoreGained, updates[k].isCorrect)
      {
        if k < n {
          assert after[updates[k].playerId] == before[prefix[k].playerId];
        } else {
          assert before[u.playerId] == players[u.playerId];
        }
      }
      forall id | id in players && (forall k :: 0 <= k < |updates| ==> updates[k].playerId != id)
        ensures after[id] == players[id]
      {
        assert u.playerId != id;
        assert forall k :: 0 <= k < |prefix| ==> prefix[k].playerId != id;
      }
    }
  }

  /** What the answer-review step promises: every update was applied to its
      player, and the player's new score is the update's total. */
  ghost predicate ScoresApplied(before: map<Id, Player>, after: map<Id, Player>, updates: seq<ScoreUpdate>)
  {
    forall k :: 0 <= k < |updates| ==>
      && updates[k].playerId in before && updates[k].playerId in after
      && after[updates[k].playerId]
         == PlayerRegistry.Scored(before[updates[k].playerId], updates[k].scoreGained, updates[k].isCorrect)
      && after[updates[k].playerId].currentScore == updates[k].totalScore
  }

  /** A round's updates, one per player of a room (players with distinct
      ids, as the registry holds them), applied in turn: each player is
      scored by its own update and ends on the update's total. */
  lemma {:induction false} RoundUpdatesApplied(players: seq<Player>, before: map<Id, Player>, updates: seq<ScoreUpdate>,
                                               correctDoor: DoorOption, roundStartTime: int, now: int)
    requires PlayerRegistry.DistinctPlayers(players)
    requires forall p :: p in players ==> p.playerId in before && before[p.playerId] == p
    requires |updates| == |players|
    requires forall i :: 0 <= i < |players| ==>
               Scoring.IsScoreUpdateFor(updates[i], players[i], correctDoor, roundStartTime, now)
    ensures DistinctUpdates(updates)
    ensures ScoresApplied(before, ApplyScores(before, updates), updates)
  {
    assert DistinctUpdates(updates) by {
      forall i, j | 0 <= i < j < |updates| ensures updates[i].playerId != updates[j].playerId {
        assert updates[i].playerId == players[i].playerId && updates[j].playerId == players[j].playerId;
      }
    }
    ApplyScoresEffect(before, updates);
    forall k | 0 <= k < |updates|
      ensures updates[k].playerId in before
      ensures before[updates[k].playerId] == players[k]
    {
      assert players[k] in players;
    }
  }

  /** The handle that re-arming or clearing the timer of `gameId` cancels:
      the stored one, if any. */
  function Replaced(timers: map<Id, Timer>, gameId: Id): set<Timer>
  {
    if gameId in timers then {timers[gameId]} else {}
  }

  /** The phases whose handler arms a new game timer (the question and review
      handlers give up when there is no current question). */
  predicate Rearms(g: GameState)
  {
    || g.phase == Movement || g.phase == RoundEnd
    || ((g.phase == QuestionActive || g.phase == AnswerReview) && g.currentQuestion.Some?)
  }

  class SocketHandlers {
    const playerManager: PlayerRegistry.PlayerManager
    const roomManager: RoomRegistry.RoomManager
    const gameManager: GameManagement.GameManager
    /** The countdown interval running for each room. */
    var roomCountdowns: map<Id, Timer>
    /** The seconds left on each room's countdown. */
    var roomCountdownSeconds: map<Id, int>
    /** The next timer handle to hand out; every handle in use is below it. */
    var nextTimer: Timer

    ghost predicate Valid()
      reads this, playerManager, roomManager, gameManager
    {
      && playerManager.Valid() && roomManager.Valid() && gameManager.Valid()
      && roomCountdowns.Keys == roomCountdownSeconds.Keys
      && (forall r :: r in roomCountdownSeconds ==> 1 <= roomCountdownSeconds[r] <= GAME_START_COUNTDOWN_SECONDS)
      && (forall id :: id in gameManager.timers ==> gameManager.timers[id] < nextTimer)
      && (forall t :: t in gameManager.cancelled ==> t < nextTimer)
      && (forall r :: r in roomCountdowns ==> roomCountdowns[r] < nextTimer)
    }

    /** The server wires fresh registries into the handlers. */
    constructor ()
      ensures Valid()
      ensures fresh(playerManager) && fresh(roomManager) && fresh(gameManager)
      ensures roomCountdowns == map[] && roomCountdownSeconds == map[]
    {
      playerManager := new PlayerRegistry.PlayerManager();
      roomManager := new RoomRegistry.RoomManager();
      gameManager := new GameManagement.GameManager();
      roomCountdowns := map[];
      roomCountdownSeconds := map[];
      nextTimer := 0;
    }

    /** A handle no timer has had yet (what setTimeout / setInterval return). */
    method NewTimer() returns (t: Timer)
      requires Valid()
      modifies this
      ensures Valid()
      ensures t == old(nextTimer) && nextTimer == t + 1
      ensures gameManager.FreshTimer(t)
      ensures roomCountdowns == old(roomCountdowns) && roomCountdownSeconds == old(roomCountdownSeconds)
    {
      t := nextTimer;
      nextTimer := nextTimer + 1;
    }

    // ----- Connection events -----

    /** Auto-assigns the new socket's player to a room and joins it there,
        then starts the room's countdown if the room can start. The room is
        the cached one while it can still take a player, else the first room
        in creation order that can, else a new room under `freshRoomId`. */
    method HandleConnection(socketId: Id, freshRoomId: Id, playerId: Id, suffix: nat, pick: nat, now: int)
      returns (player: Player)
      requires Valid()
      requires freshRoomId !in roomManager.rooms.entries && playerId !in playerManager.players.entries
      requires suffix < PlayerRegistry.USERNAME_RANGE
      modifies this, playerManager, roomManager
      ensures Valid()
      ensures player == PlayerRegistry.NewPlayer(playerId, socketId, PlayerRegistry.GenerateUsername(suffix),
                                                 player.character, player.roomId)
      ensures playerManager.players == old(playerManager.players).Put(playerId, player)
      ensures playerManager.GetPlayerBySocket(socketId) == (if playerId != "" then Some(player) else None)
      ensures old(roomManager.CachedEligible()) ==> player.roomId == old(roomManager.currentAutoAssignRoom).value
      ensures !old(roomManager.CachedEligible())
              && (exists i :: 0 <= i < |old(roomManager.rooms.keys)|
                    && RoomRegistry.Eligible(old(roomManager.rooms.entries)[old(roomManager.rooms.keys)[i]])) ==>
                exists i :: 0 <= i < |old(roomManager.rooms.keys)| && old(roomManager.rooms.keys)[i] == player.roomId
                  && RoomRegistry.Eligible(old(roomManager.rooms.entries)[player.roomId])
                  && forall j :: 0 <= j < i ==> !RoomRegistry.Eligible(old(roomManager.rooms.entries)[old(roomManager.rooms.keys)[j]])
      ensures !old(roomManager.CachedEligible())
              && (forall i :: 0 <= i < |old(roomManager.rooms.keys)| ==>
                    !RoomRegistry.Eligible(old(roomManager.rooms.entries)[old(roomManager.rooms.keys)[i]])) ==>
                player.roomId == freshRoomId
      ensures var joined := player.roomId in old(roomManager.rooms.entries);
              var before := if joined then old(roomManager.rooms.entries)[player.roomId]
                            else RoomRegistry.NewRoom(freshRoomId, now);
              && roomManager.rooms.keys == (if joined then old(roomManager.rooms.keys)
                                            else old(roomManager.rooms.keys) + [freshRoomId])
              && roomManager.rooms.entries
                 == old(roomManager.rooms.entries)[player.roomId := RoomRegistry.AfterJoin(before, playerId)]
      ensures roomManager.currentAutoAssignRoom == Some(player.roomId)
      ensures player.roomId in roomManager.rooms.entries && playerId in roomManager.rooms.entries[player.roomId].playerIds
      ensures roomCountdownSeconds == if player.roomId in old(roomCountdowns) then old(roomCountdownSeconds)
                                      else old(roomCountdownSeconds)[player.roomId := GAME_START_COUNTDOWN_SECONDS]
      ensures roomCountdowns == if player.roomId in old(roomCountdowns) then old(roomCountdowns)
                                else old(roomCountdowns)[player.roomId := old(nextTimer)]
      ensures player.character in PlayerRegistry.CHARACTERS
      ensures player.character !in PlayerRegistry.PoolAfterReset(old(playerManager.usedCharacters))
      ensures playerManager.usedCharacters == PlayerRegistry.PoolAfterReset(old(playerManager.usedCharacters)) + {player.character}
      ensures playerManager.socketToPlayer == old(playerManager.socketToPlayer)[socketId := playerId]
    {
      player := JoinAssignedRoom(socketId, freshRoomId, playerId, suffix, pick, now);
      CheckAndStartGame(player.roomId);
    }

    /** `handleConnection` up to the countdown: the room auto-assignment picks,
        the new player, and the player on that room's roster; the room can
        then start. */
    method JoinAssignedRoom(socketId: Id, freshRoomId: Id, playerId: Id, suffix: nat, pick: nat, now: int)
      returns (player: Player)
      requires Valid()
      requires freshRoomId !in roomManager.rooms.entries && playerId !in playerManager.players.entries
      requires suffix < PlayerRegistry.USERNAME_RANGE
      modifies playerManager, roomManager
      ensures Valid()
      ensures player == PlayerRegistry.NewPlayer(playerId, socketId, PlayerRegistry.GenerateUsername(suffix),
                                                 player.character, player.roomId)
      ensures playerManager.players == old(playerManager.players).Put(playerId, player)
      ensures playerManager.GetPlayerBySocket(socketId) == (if playerId != "" then Some(player) else None)
      ensures old(roomManager.CachedEligible()) ==> player.roomId == old(roomManager.currentAutoAssignRoom).value
      ensures !old(roomManager.CachedEligible())
              && (exists i :: 0 <= i < |old(roomManager.rooms.keys)|
                    && RoomRegistry.Eligible(old(roomManager.rooms.entries)[old(roomManager.rooms.keys)[i]])) ==>
                exists i :: 0 <= i < |old(roomManager.rooms.keys)| && old(roomManager.rooms.keys)[i] == player.roomId
                  && RoomRegistry.Eligible(old(roomManager.rooms.entries)[player.roomId])
                  && forall j :: 0 <= j < i ==> !RoomRegistry.Eligible(old(roomManager.rooms.entries)[old(roomManager.rooms.keys)[j]])
      ensures !old(roomManager.CachedEligible())
              && (forall i :: 0 <= i < |old(roomManager.rooms.keys)| ==>
                    !RoomRegistry.Eligible(old(roomManager.rooms.entries)[old(roomManager.rooms.keys)[i]])) ==>
                player.roomId == freshRoomId
      ensures var joined := player.roomId in old(roomManager.rooms.entries);
              var before := if joined then old(roomManager.rooms.entries)[player.roomId]
                            else RoomRegistry.NewRoom(freshRoomId, now);
              && roomManager.rooms.keys == (if joined then old(roomManager.rooms.keys)
                                            else old(roomManager.rooms.keys) + [freshRoomId])
              && roomManager.rooms.entries
                 == old(roomManager.rooms.entries)[player.roomId := RoomRegistry.AfterJoin(before, playerId)]
      ensures roomManager.currentAutoAssignRoom == Some(player.roomId)
      ensures player.roomId in roomManager.rooms.entries && playerId in roomManager.rooms.entries[player.roomId].playerIds
      ensures roomManager.CanStartGame(player.roomId)
      ensures player.character in PlayerRegistry.CHARACTERS
      ensures player.character !in PlayerRegistry.PoolAfterReset(old(playerManager.usedCharacters))
      ensures playerManager.usedCharacters == PlayerRegistry.PoolAfterReset(old(playerManager.usedCharacters)) + {player.character}
      ensures playerManager.socketToPlayer == old(playerManager.socketToPlayer)[socketId := playerId]
    {
      ghost var entries0 := roomManager.rooms.entries;
      var room := roomManager.FindOrCreateAvailableRoom(freshRoomId, now);
      ghost var before := if room.roomId in entries0 then entries0[room.roomId] else RoomRegistry.NewRoom(freshRoomId, now);
      ghost var mid := roomManager.rooms.entries;
      assert mid == entries0 || mid == entries0[room.roomId := before];
      player := SeatNewPlayer(socketId, room.roomId, playerId, suffix, pick);
      UpdateTwice(entries0, room.roomId, before, RoomRegistry.AfterJoin(before, playerId));
    }

    /** Creates the socket's player in the room and adds them to its roster. */
    method SeatNewPlayer(socketId: Id, roomId: Id, playerId: Id, suffix: nat, pick: nat) returns (player: Player)
      requires Valid()
      requires roomId in roomManager.rooms.entries && RoomRegistry.Eligible(roomManager.rooms.entries[roomId])
      requires playerId !in playerManager.players.entries
      requires suffix < PlayerRegistry.USERNAME_RANGE
      modifies playerManager, roomManager
      ensures Valid()
      ensures player == PlayerRegistry.NewPlayer(playerId, socketId, PlayerRegistry.GenerateUsername(suffix),
                                                 player.character, roomId)
      ensures playerManager.players == old(playerManager.players).Put(playerId, player)
      ensures playerManager.GetPlayerBySocket(socketId) == (if playerId != "" then Some(player) else None)
      ensures roomManager.rooms.keys == old(roomManager.rooms.keys)
      ensures roomManager.rooms.entries
              == old(roomManager.rooms.entries)[roomId := RoomRegistry.AfterJoin(old(roomManager.rooms.entries[roomId]), playerId)]
      ensures roomManager.currentAutoAssignRoom == old(roomManager.currentAutoAssignRoom)
      ensures playerId in roomManager.rooms.entries[roomId].playerIds
      ensures roomManager.CanStartGame(roomId)
      ensures player.character in PlayerRegistry.CHARACTERS
      ensures player.character !in PlayerRegistry.PoolAfterReset(old(playerManager.usedCharacters))
      ensures playerManager.usedCharacters == PlayerRegistry.PoolAfterReset(old(playerManager.usedCharacters)) + {player.character}
      ensures playerManager.socketToPlayer == old(playerManager.socketToPlayer)[socketId := playerId]
    {
      player := playerManager.CreatePlayer(socketId, roomId, playerId, suffix, pick);
      RoomRegistry.JoinKeepsRoomInvariant(roomManager.rooms.entries[roomId], playerId);
      var joined := roomManager.AddPlayerToRoom(roomId, playerId);
    }

    /** Moves the socket's player; during a question, standing at a door
        stamps the answer time and records the player as answered. An
        unknown socket changes nothing. */
    method HandlePlayerMovement(socketId: Id, position: Position, door: Option<DoorOption>, now: int)
      requires Valid()
      modifies playerManager, gameManager
      ensures Valid()
      ensures gameManager.timers == old(gameManager.timers) && gameManager.cancelled == old(gameManager.cancelled)
      ensures old(playerManager.GetPlayerBySocket(socketId)).None? ==>
                playerManager.players == old(playerManager.players) && gameManager.games == old(gameManager.games)
      ensures old(playerManager.GetPlayerBySocket(socketId)).Some? ==>
                var p := old(playerManager.GetPlayerBySocket(socketId)).value;
                Moved(p, position, door, now,
                      old(GameManagement.FirstGameInRoom(gameManager.games.keys, gameManager.games.entries, p.roomId)),
                      old(playerManager.players), old(gameManager.games))
      ensures playerManager.socketToPlayer == old(playerManager.socketToPlayer)
      ensures playerManager.usedCharacters == old(playerManager.usedCharacters)
    {
      var found := playerManager.GetPlayerBySocket(socketId);
      if found.None? { return; }
      var game := gameManager.GetGameByRoom(found.value.roomId);
      MovePlayer(found.value, game, position, door, now);
    }

    /** The effect of a move of player `p` when the room's game was `game`,
        from the registries `players` and `games` as they were before it: the
        position and door are recorded, and when the game is posing a
        question and the player stands at a door, the answer time is stamped
        and the game counts the player as answered. Nothing else changes. */
    ghost predicate Moved(p: Player, position: Position, door: Option<DoorOption>, now: int,
                          game: Option<GameState>, players: OrderedMap<Player>, games: OrderedMap<GameState>)
      reads this, playerManager, gameManager
    {
      var answers := game.Some? && game.value.phase == QuestionActive && door.Some?;
      && playerManager.players.keys == players.keys
      && p.playerId in playerManager.players.entries
      && playerManager.players.entries[p.playerId]
         == p.(position := position, currentDoor := door,
               lastAnswerTime := if answers then Some(now) else p.lastAnswerTime)
      && (forall id :: id in players.entries && id != p.playerId ==>
            id in playerManager.players.entries && playerManager.players.entries[id] == players.entries[id])
      && gameManager.games.keys == games.keys
      && (forall id :: id in games.entries && !(answers && id == game.value.gameId) ==>
            id in gameManager.games.entries && gameManager.games.entries[id] == games.entries[id])
      && (answers ==>
            && game.value.gameId in gameManager.games.entries
            && gameManager.games.entries[game.value.gameId]
               == game.value.(playersAnswered := game.value.playersAnswered + {p.playerId}))
    }

    /** `handlePlayerMovement` once the socket's player and the game of
        their room are known. */
    method MovePlayer(player: Player, game: Option<GameState>, position: Position, door: Option<DoorOption>, now: int)
      requires Valid()
      requires player.playerId in playerManager.players.entries
      requires playerManager.players.entries[player.playerId] == player
      requires game.Some? ==> game.value.gameId in gameManager.games.entries
                              && gameManager.games.entries[game.value.gameId] == game.value
      modifies playerManager, gameManager
      ensures Valid()
      ensures gameManager.timers == old(gameManager.timers) && gameManager.cancelled == old(gameManager.cancelled)
      ensures Moved(player, position, door, now, game, old(playerManager.players), old(gameManager.games))
      ensures playerManager.socketToPlayer == old(playerManager.socketToPlayer)
      ensures playerManager.usedCharacters == old(playerManager.usedCharacters)
    {
      playerManager.UpdatePlayerPosition(player.playerId, position, door);
      if game.None? || !(game.value.phase == QuestionActive && door.Some?) {
        return;
      }
      RecordAnswer(player.playerId, game.value.gameId, now);
    }

    /** A player standing at a door during a question: the answer time is
        stamped and the game counts the player as answered. */
    method RecordAnswer(playerId: Id, gameId: Id, now: int)
      requires Valid()
      requires playerId in playerManager.players.entries && gameId in gameManager.games.entries
      modifies playerManager, gameManager
      ensures Valid()
      ensures playerManager.players.keys == old(playerManager.players.keys)
      ensures playerManager.players.entries == old(playerManager.players.entries)[playerId :=
                old(playerManager.players.entries[playerId]).(lastAnswerTime := Some(now))]
      ensures gameManager.games.keys == old(gameManager.games.keys)
      ensures gameManager.games.entries == old(gameManager.games.entries)[gameId :=
                old(gameManager.games.entries[gameId]).(playersAnswered := old(gameManager.games.entries[gameId].playersAnswered) + {playerId})]
      ensures gameManager.timers == old(gameManager.timers) && gameManager.cancelled == old(gameManager.cancelled)
      ensures playerManager.socketToPlayer == old(playerManager.socketToPlayer)
      ensures playerManager.usedCharacters == old(playerManager.usedCharacters)
    {
      playerManager.RecordAnswerTime(playerId, now);
      gameManager.RecordPlayerDoor(gameId, playerId);
    }

    /** A player may ask for their room's game to start at once. */
    method HandleStartGameRequest(socketId: Id, gameId: Id, now: int)
      requires Valid()
      requires gameId !in gameManager.games.entries
      modifies this, roomManager, gameManager
      ensures Valid()
      ensures roomCountdowns == old(roomCountdowns) && roomCountdownSeconds == old(roomCountdownSeconds)
      ensures var found := old(playerManager.GetPlayerBySocket(socketId));
              var room := if found.Some? then old(roomManager.GetRoom(found.value.roomId)) else None;
              && (room.None? || room.value.isGameStarted ==> Unchanged(old(roomManager.rooms), old(roomManager.currentAutoAssignRoom),
                                                                       old(gameManager.games), old(gameManager.timers)))
              && (room.Some? && !room.value.isGameStarted ==>
                    && Launched(room.value, gameId, now, old(roomManager.rooms), old(roomManager.currentAutoAssignRoom), old(gameManager.games))
                    && GameStarted(room.value.roomId, gameId)
                    && gameManager.timers == old(gameManager.timers)[gameId := old(nextTimer)])
    {
      var found := playerManager.GetPlayerBySocket(socketId);
      if found.None? { return; }
      StartGame(found.value.roomId, gameId, now);
    }

    /** Marks the socket's player disconnected; the room keeps them. */
    method HandleDisconnect(socketId: Id) returns (player: Option<Player>)
      requires Valid()
      modifies playerManager
      ensures Valid()
      ensures player.Some? <==> old(playerManager.GetPlayerBySocket(socketId)).Some?
      ensures player.Some? ==> player.value == old(playerManager.GetPlayerBySocket(socketId)).value.(isConnected := false)
                               && player.value.playerId in playerManager.players.entries
                               && playerManager.players.entries[player.value.playerId] == player.value
      ensures player.None? ==> playerManager.players == old(playerManager.players)
      ensures playerManager.players.keys == old(playerManager.players.keys)
      ensures player.Some? ==>
                playerManager.players.entries == old(playerManager.players.entries)[player.value.playerId := player.value]
      ensures playerManager.socketToPlayer == old(playerManager.socketToPlayer)
      ensures playerManager.usedCharacters == old(playerManager.usedCharacters)
    {
      player := playerManager.DisconnectPlayer(socketId);
    }

    // ----- Start countdown -----

    /** Starts the countdown when the room can start and has none running. */
    method CheckAndStartGame(roomId: Id)
      requires Valid()
      modifies this
      ensures Valid()
      ensures var starts := roomManager.CanStartGame(roomId) && roomId !in old(roomCountdowns);
              && (starts ==> roomCountdownSeconds == old(roomCountdownSeconds)[roomId := GAME_START_COUNTDOWN_SECONDS]
                             && roomCountdowns == old(roomCountdowns)[roomId := old(nextTimer)])
              && (!starts ==> roomCountdownSeconds == old(roomCountdownSeconds) && roomCountdowns == old(roomCountdowns))
    {
      if !roomManager.CanStartGame(roomId) { return; }
      var room := roomManager.GetRoom(roomId);
      if room.None? { return; }
      if roomId in roomCountdowns { return; }
      StartCountdown(roomId, GAME_START_COUNTDOWN_SECONDS);
    }

    /** Records the seconds left and the interval that will tick them down. */
    method StartCountdown(roomId: Id, seconds: int)
      requires Valid()
      requires 1 <= seconds <= GAME_START_COUNTDOWN_SECONDS
      modifies this
      ensures Valid()
      ensures roomCountdownSeconds == old(roomCountdownSeconds)[roomId := seconds]
      ensures roomCountdowns == old(roomCountdowns)[roomId := old(nextTimer)]
    {
      var interval := NewTimer();
      roomCountdownSeconds := roomCountdownSeconds[roomId := seconds];
      roomCountdowns := roomCountdowns[roomId := interval];
    }

    /** Stops the room's countdown, if one is running. */
    method CancelCountdown(roomId: Id)
      requires Valid()
      modifies this
      ensures Valid()
      ensures roomCountdowns == old(roomCountdowns) - {roomId}
      ensures roomCountdownSeconds == old(roomCountdownSeconds) - {roomId}
    {
      if roomId in roomCountdowns {
        roomCountdowns := roomCountdowns - {roomId};
        roomCountdownSeconds := roomCountdownSeconds - {roomId};
      }
    }

    /** One second of the room's countdown: one second less, and at zero the
        countdown is dropped and the game starts if the room still can. */
    method CountdownTick(roomId: Id, gameId: Id, now: int)
      requires Valid()
      requires gameId !in gameManager.games.entries
      modifies this, roomManager, gameManager
      ensures Valid()
      ensures roomId !in old(roomCountdownSeconds) ==>
                && roomCountdownSeconds == old(roomCountdownSeconds) && roomCountdowns == old(roomCountdowns)
                && Unchanged(old(roomManager.rooms), old(roomManager.currentAutoAssignRoom), old(gameManager.games), old(gameManager.timers))
      ensures roomId in old(roomCountdownSeconds) && old(roomCountdownSeconds[roomId]) > 1 ==>
                && roomCountdownSeconds == old(roomCountdownSeconds)[roomId := old(roomCountdownSeconds[roomId]) - 1]
                && roomCountdowns == old(roomCountdowns)
                && Unchanged(old(roomManager.rooms), old(roomManager.currentAutoAssignRoom), old(gameManager.games), old(gameManager.timers))
      ensures roomId in old(roomCountdownSeconds) && old(roomCountdownSeconds[roomId]) == 1 ==>
                && roomCountdownSeconds == old(roomCountdownSeconds) - {roomId}
                && roomCountdowns == old(roomCountdowns) - {roomId}
                && (old(roomManager.CanStartGame(roomId)) ==>
                      && Launched(old(roomManager.rooms.entries[roomId]), gameId, now, old(roomManager.rooms),
                                  old(roomManager.currentAutoAssignRoom), old(gameManager.games))
                      && GameStarted(roomId, gameId)
                      && gameManager.timers == old(gameManager.timers)[gameId := old(nextTimer)])
                && (!old(roomManager.CanStartGame(roomId)) ==>
                      Unchanged(old(roomManager.rooms), old(roomManager.currentAutoAssignRoom), old(gameManager.games), old(gameManager.timers)))
    {
      if roomId !in roomCountdownSeconds { return; }
      var remaining := roomCountdownSeconds[roomId];
      var newRemaining := remaining - 1;
      if newRemaining > 0 {
        roomCountdownSeconds := roomCountdownSeconds[roomId := newRemaining];
      } else {
        roomCountdowns := roomCountdowns - {roomId};
        roomCountdownSeconds := roomCountdownSeconds - {roomId};
        if roomManager.CanStartGame(roomId) {
          StartGame(roomId, gameId, now);
        }
      }
    }

    // ----- Game start and the phase loop -----

    /** The room is started and owns the game `gameId`, which belongs to the
        room, plays its roster and is in round 1's movement phase. */
    ghost predicate GameStarted(roomId: Id, gameId: Id)
      reads this, roomManager, gameManager
    {
      && roomId in roomManager.rooms.entries
      && roomManager.rooms.entries[roomId].isGameStarted
      && roomManager.rooms.entries[roomId].gameState == Some(gameId)
      && gameId in gameManager.games.entries
      && gameManager.games.entries[gameId].roomId == roomId
      && gameManager.games.entries[gameId].phase == Movement
      && gameManager.games.entries[gameId].currentRound == 1
      && gameManager.games.entries[gameId].playerIds == roomManager.rooms.entries[roomId].playerIds
    }

    /** The rooms, the cached room, the games and the game timers are as they were. */
    ghost predicate Unchanged(rooms: OrderedMap<Room>, cache: Option<Id>, games: OrderedMap<GameState>, timers: map<Id, Timer>)
      reads this, roomManager, gameManager
    {
      && roomManager.rooms == rooms && roomManager.currentAutoAssignRoom == cache
      && gameManager.games == games && gameManager.timers == timers
    }

    /** The whole of the room and game registries after `startGame` launched
        game `gameId` at `now` for `room`, from `rooms`, `cache` and `games`
        as they were: only that room changed (started, pointing to the game,
        and no longer the cached room), and the game `createGame` built from
        its roster was added last, in round 1's movement phase. */
    ghost predicate Launched(room: Room, gameId: Id, now: int,
                             rooms: OrderedMap<Room>, cache: Option<Id>, games: OrderedMap<GameState>)
      reads this, roomManager, gameManager
    {
      && roomManager.rooms.keys == rooms.keys
      && roomManager.rooms.entries
         == rooms.entries[room.roomId := room.(isGameStarted := true, gameState := Some(gameId))]
      && roomManager.currentAutoAssignRoom == (if cache == Some(room.roomId) then None else cache)
      && gameManager.games.keys == games.keys + [gameId]
      && gameManager.games.entries
         == games.entries[gameId := GameManagement.NewGame(gameId, room.roomId, room.playerIds, now).(
                                      phase := Movement, currentRound := 1)]
    }

    /** Starts the room's game once: marks the room started, creates the game
        from the room's roster, attaches it, enters round 1 and runs the loop,
        which arms the movement timer. An unknown or already started room
        changes nothing. */
    method StartGame(roomId: Id, gameId: Id, now: int)
      requires Valid()
      requires gameId !in gameManager.games.entries
      modifies this, roomManager, gameManager
      ensures Valid()
      ensures roomCountdowns == old(roomCountdowns) && roomCountdownSeconds == old(roomCountdownSeconds)
      ensures var room := old(roomManager.GetRoom(roomId));
              && (room.None? || room.value.isGameStarted ==>
                    Unchanged(old(roomManager.rooms), old(roomManager.currentAutoAssignRoom), old(gameManager.games), old(gameManager.timers)))
              && (room.Some? && !room.value.isGameStarted ==>
                    && Launched(room.value, gameId, now, old(roomManager.rooms), old(roomManager.currentAutoAssignRoom), old(gameManager.games))
                    && GameStarted(roomId, gameId)
                    && gameManager.timers == old(gameManager.timers)[gameId := old(nextTimer)])
    {
      var room := roomManager.GetRoom(roomId);
      if room.None? || room.value.isGameStarted { return; }
      LaunchGame(roomId, gameId, now);
      // the loop's dispatch for the movement phase just entered
      HandleMovementPhase(gameId);
    }

    /** `startGame` up to the loop: the room is started, the game is created
        from its roster, attached to it and moved to round 1. (The room's
        updates and the game's are independent, so they are done one registry
        at a time.) */
    method LaunchGame(roomId: Id, gameId: Id, now: int)
      requires Valid()
      requires roomId in roomManager.rooms.entries && !roomManager.rooms.entries[roomId].isGameStarted
      requires gameId !in gameManager.games.entries
      modifies roomManager, gameManager
      ensures Valid()
      ensures Launched(old(roomManager.rooms.entries[roomId]), gameId, now, old(roomManager.rooms),
                       old(roomManager.currentAutoAssignRoom), old(gameManager.games))
      ensures GameStarted(roomId, gameId)
      ensures gameManager.timers == old(gameManager.timers) && gameManager.cancelled == old(gameManager.cancelled)
    {
      var playerIds := roomManager.rooms.entries[roomId].playerIds;
      AttachGame(roomId, gameId);
      FirstRound(roomId, playerIds, gameId, now);
    }

    /** The room is marked started, points to its game, and stops being the
        cached room; no other room changes. */
    method AttachGame(roomId: Id, gameId: Id)
      requires Valid()
      requires roomId in roomManager.rooms.entries
      modifies roomManager
      ensures Valid()
      ensures roomManager.rooms.keys == old(roomManager.rooms.keys)
      ensures roomManager.rooms.entries == old(roomManager.rooms.entries)[roomId :=
                old(roomManager.rooms.entries[roomId]).(isGameStarted := true, gameState := Some(gameId))]
      ensures roomManager.currentAutoAssignRoom ==
                if old(roomManager.currentAutoAssignRoom) == Some(roomId) then None else old(roomManager.currentAutoAssignRoom)
    {
      roomManager.StartGame(roomId);
      roomManager.SetGameState(roomId, gameId);
    }

    /** A new game for the roster, added last and moved to round 1's movement
        phase; no other game and no timer changes. */
    method FirstRound(roomId: Id, playerIds: seq<Id>, gameId: Id, now: int)
      requires Valid()
      requires gameId !in gameManager.games.entries
      modifies gameManager
      ensures Valid()
      ensures gameManager.games.keys == old(gameManager.games.keys) + [gameId]
      ensures gameManager.games.entries == old(gameManager.games.entries)[gameId :=
                GameManagement.NewGame(gameId, roomId, playerIds, now).(phase := Movement, currentRound := 1)]
      ensures gameManager.timers == old(gameManager.timers) && gameManager.cancelled == old(gameManager.cancelled)
    {
      var game := gameManager.CreateGame(roomId, playerIds, gameId, now);
      gameManager.StartGame(game.gameId);
    }

    /** Runs the handler of the game's current phase. */
    method StartGameLoop(gameId: Id, now: int) returns (out: Emitted)
      requires Valid()
      modifies this, playerManager, gameManager
      ensures Valid()
      ensures gameManager.games == old(gameManager.games)
      ensures roomCountdowns == old(roomCountdowns) && roomCountdownSeconds == old(roomCountdownSeconds)
      ensures playerManager.socketToPlayer == old(playerManager.socketToPlayer)
      ensures gameId !in old(gameManager.games.entries) ==>
                && out == Nothing && gameManager.timers == old(gameManager.timers)
                && playerManager.players == old(playerManager.players)
      ensures gameId in old(gameManager.games.entries) ==>
                var g := old(gameManager.games.entries[gameId]);
                && (Rearms(g) ==> gameManager.timers == old(gameManager.timers)[gameId := old(nextTimer)])
                && (!Rearms(g) ==> gameManager.timers == old(gameManager.timers))
                && (out.AnswerRevealed? <==> g.phase == AnswerReview && g.currentQuestion.Some?)
                && (out.GameOverAnnounced? <==> g.phase == GameOver)
                && (out.AnswerRevealed? ==> AnswerReviewed(out, g, now, old(playerManager.players), old(playerManager.GetPlayersInRoom(g.roomId))))
                && (!out.AnswerRevealed? ==> playerManager.players == old(playerManager.players))
                && (out.GameOverAnnounced? ==> GameOverOf(out, g))
      ensures playerManager.usedCharacters == old(playerManager.usedCharacters)
      ensures gameManager.cancelled == old(gameManager.cancelled)
                + (if gameId in old(gameManager.games.entries) && Rearms(old(gameManager.games.entries[gameId])) then Replaced(old(gameManager.timers), gameId) else {})
    {
      var game := gameManager.GetGame(gameId);
      if game.None? { return Nothing; }
      out := Nothing;
      match game.value.phase {
        case Movement => HandleMovementPhase(gameId);
        case QuestionActive => HandleQuestionPhase(gameId);
        case AnswerReview => out := HandleAnswerReviewPhase(gameId, now);
        case RoundEnd => HandleRoundEndPhase(gameId);
        case GameOver => out := HandleGameOver(gameId);
        case Waiting =>
      }
    }

    /** The answer reveal after review of game `g` at time `now`: the
        question's door; one update per player of the room (`roomBefore`, as
        the room was before the review), scored against that door from the
        round's start; the players of `before` with each update applied to its
        player and nobody else changed, in the same order; and the leaderboard
        of the room's players after the updates. */
    ghost predicate AnswerReviewed(out: Emitted, g: GameState, now: int,
                                   before: OrderedMap<Player>, roomBefore: seq<Player>)
      requires playerManager.Valid()
      reads this, playerManager
    {
      && out.AnswerRevealed?
      && g.currentQuestion.Some?
      && out.correctAnswer == g.currentQuestion.value.correctAnswer
      && |out.scoreUpdates| == |roomBefore|
      && (forall i :: 0 <= i < |roomBefore| ==>
            Scoring.IsScoreUpdateFor(out.scoreUpdates[i], roomBefore[i], out.correctAnswer,
                                     Scoring.OrNow(g.roundStartTime, now), now))
      && playerManager.players.keys == before.keys
      && playerManager.players.entries == ApplyScores(before.entries, out.scoreUpdates)
      && ScoresApplied(before.entries, playerManager.players.entries, out.scoreUpdates)
      && Scoring.IsLeaderboardOf(out.leaderboard, playerManager.GetPlayersInRoom(g.roomId))
    }

    /** The game-over announcement of game `g`: the leaderboard of the room's
        players, and its first entry as the winner. */
    ghost predicate GameOverOf(out: Emitted, g: GameState)
      requires playerManager.Valid()
      reads this, playerManager
    {
      && out.GameOverAnnounced?
      && Scoring.IsLeaderboardOf(out.finalLeaderboard, playerManager.GetPlayersInRoom(g.roomId))
      && out.winner == Scoring.GetWinner(out.finalLeaderboard)
    }

    /** Arms a fresh timer as the game's single timer. */
    method ArmGameTimer(gameId: Id)
      requires Valid()
      modifies this, gameManager
      ensures Valid()
      ensures gameManager.games == old(gameManager.games)
      ensures gameManager.timers == old(gameManager.timers)[gameId := old(nextTimer)]
      ensures roomCountdowns == old(roomCountdowns) && roomCountdownSeconds == old(roomCountdownSeconds)
      ensures gameManager.cancelled == old(gameManager.cancelled) + Replaced(old(gameManager.timers), gameId)
    {
      var timer := NewTimer();
      gameManager.SetGameTimer(gameId, timer);
    }

    /** Movement phase: the timer that will pose the question. */
    method HandleMovementPhase(gameId: Id)
      requires Valid()
      modifies this, gameManager
      ensures Valid()
      ensures gameManager.games == old(gameManager.games)
      ensures roomCountdowns == old(roomCountdowns) && roomCountdownSeconds == old(roomCountdownSeconds)
      ensures gameManager.timers ==
                if gameId in old(gameManager.games.entries) then old(gameManager.timers)[gameId := old(nextTimer)]
                else old(gameManager.timers)
      ensures gameManager.cancelled == old(gameManager.cancelled)
                + (if gameId in old(gameManager.games.entries) then Replaced(old(gameManager.timers), gameId) else {})
    {
      var game := gameManager.GetGame(gameId);
      if game.None? { return; }
      ArmGameTimer(gameId);
    }

    /** Question phase: the timer that will close the question (when there is one). */
    method HandleQuestionPhase(gameId: Id)
      requires Valid()
      modifies this, gameManager
      ensures Valid()
      ensures gameManager.games == old(gameManager.games)
      ensures roomCountdowns == old(roomCountdowns) && roomCountdownSeconds == old(roomCountdownSeconds)
      ensures gameManager.timers ==
                if old(gameManager.GetCurrentQuestion(gameId)).Some? then old(gameManager.timers)[gameId := old(nextTimer)]
                else old(gameManager.timers)
      ensures gameManager.cancelled == old(gameManager.cancelled)
                + (if old(gameManager.GetCurrentQuestion(gameId)).Some? then Replaced(old(gameManager.timers), gameId) else {})
    {
      var game := gameManager.GetGame(gameId);
      if game.None? || game.value.currentQuestion.None? { return; }
      ArmGameTimer(gameId);
    }

    /** Answer review: scores the room's players against the question's door,
        applies the updates, ranks the room, and arms the round-end timer. */
    method HandleAnswerReviewPhase(gameId: Id, now: int) returns (out: Emitted)
      requires Valid()
      modifies this, playerManager, gameManager
      ensures Valid()
      ensures gameManager.games == old(gameManager.games)
      ensures roomCountdowns == old(roomCountdowns) && roomCountdownSeconds == old(roomCountdownSeconds)
      ensures playerManager.socketToPlayer == old(playerManager.socketToPlayer)
      ensures old(gameManager.GetCurrentQuestion(gameId)).None? ==>
                && out == Nothing && gameManager.timers == old(gameManager.timers)
                && playerManager.players == old(playerManager.players)
      ensures old(gameManager.GetCurrentQuestion(gameId)).Some? ==>
                var g := old(gameManager.games.entries[gameId]);
                && AnswerReviewed(out, g, now, old(playerManager.players), old(playerManager.GetPlayersInRoom(g.roomId)))
                && gameManager.timers == old(gameManager.timers)[gameId := old(nextTimer)]
      ensures playerManager.usedCharacters == old(playerManager.usedCharacters)
      ensures gameManager.cancelled == old(gameManager.cancelled)
                + (if old(gameManager.GetCurrentQuestion(gameId)).Some? then Replaced(old(gameManager.timers), gameId) else {})
    {
      var game := gameManager.GetGame(gameId);
      if game.None? || game.value.currentQuestion.None? { return Nothing; }
      var g := game.value;
      var correctAnswer := g.currentQuestion.value.correctAnswer;
      var updates, leaderboard := ScoreRound(g.roomId, correctAnswer, Scoring.OrNow(g.roundStartTime, now), now);
      ArmGameTimer(gameId);
      out := AnswerRevealed(correctAnswer, updates, leaderboard);
    }

    /** The scoring half of the review: one update per player of the room,
        applied in turn, and the room's leaderboard afterwards. */
    method ScoreRound(roomId: Id, correctAnswer: DoorOption, roundStartTime: int, now: int)
      returns (updates: seq<ScoreUpdate>, leaderboard: seq<LeaderboardEntry>)
      requires Valid()
      modifies playerManager
      ensures Valid()
      ensures var roomBefore := old(playerManager.GetPlayersInRoom(roomId));
              && |updates| == |roomBefore|
              && (forall i :: 0 <= i < |roomBefore| ==>
                    Scoring.IsScoreUpdateFor(updates[i], roomBefore[i], correctAnswer, roundStartTime, now))
      ensures playerManager.players.keys == old(playerManager.players.keys)
      ensures playerManager.players.entries == ApplyScores(old(playerManager.players.entries), updates)
      ensures ScoresApplied(old(playerManager.players.entries), playerManager.players.entries, updates)
      ensures Scoring.IsLeaderboardOf(leaderboard, playerManager.GetPlayersInRoom(roomId))
      ensures playerManager.socketToPlayer == old(playerManager.socketToPlayer)
      ensures playerManager.usedCharacters == old(playerManager.usedCharacters)
    {
      var players := playerManager.GetPlayersInRoom(roomId);
      updates := Scoring.GenerateScoreUpdates(players, correctAnswer, roundStartTime, now);
      RoundUpdatesApplied(players, playerManager.players.entries, updates, correctAnswer, roundStartTime, now);
      ApplyScoreUpdates(updates);
      var updatedPlayers := playerManager.GetPlayersInRoom(roomId);
      leaderboard := Scoring.GenerateLeaderboard(updatedPlayers);
    }

    /** `updatePlayerScore` for each update, in order. */
    method ApplyScoreUpdates(updates: seq<ScoreUpdate>)
      requires Valid()
      modifies playerManager
      ensures Valid()
      ensures playerManager.players.keys == old(playerManager.players.keys)
      ensures playerManager.players.entries == ApplyScores(old(playerManager.players.entries), updates)
      ensures playerManager.socketToPlayer == old(playerManager.socketToPlayer)
      ensures playerManager.usedCharacters == old(playerManager.usedCharacters)
    {
      for i := 0 to |updates|
        invariant playerManager.Valid()
        invariant playerManager.socketToPlayer == old(playerManager.socketToPlayer)
        invariant playerManager.usedCharacters == old(playerManager.usedCharacters)
        invariant playerManager.players.keys == old(playerManager.players.keys)
        invariant playerManager.players.entries == ApplyScores(old(playerManager.players.entries), updates[..i])
      {
        var update := updates[i];
        playerManager.UpdatePlayerScore(update.playerId, update.scoreGained, update.isCorrect);
        assert updates[..i + 1][..i] == updates[..i];
      }
      assert updates[..|updates|] == updates;
    }

    /** Round end: the timer that will move on to the next round or finish. */
    method HandleRoundEndPhase(gameId: Id)
      requires Valid()
      modifies this, gameManager
      ensures Valid()
      ensures gameManager.games == old(gameManager.games)
      ensures roomCountdowns == old(roomCountdowns) && roomCountdownSeconds == old(roomCountdownSeconds)
      ensures gameManager.timers ==
                if gameId in old(gameManager.games.entries) then old(gameManager.timers)[gameId := old(nextTimer)]
                else old(gameManager.timers)
      ensures gameManager.cancelled == old(gameManager.cancelled)
                + (if gameId in old(gameManager.games.entries) then Replaced(old(gameManager.timers), gameId) else {})
    {
      var game := gameManager.GetGame(gameId);
      if game.None? { return; }
      ArmGameTimer(gameId);
    }

    /** Game over: the final leaderboard of the room's players and its winner.
        The removal of the game is the callback `GameRemovalTimerFired`. */
    method HandleGameOver(gameId: Id) returns (out: Emitted)
      requires Valid()
      ensures gameId !in gameManager.games.entries ==> out == Nothing
      ensures gameId in gameManager.games.entries ==> GameOverOf(out, gameManager.games.entries[gameId])
    {
      var game := gameManager.GetGame(gameId);
      if game.None? { return Nothing; }
      var players := playerManager.GetPlayersInRoom(game.value.roomId);
      var finalLeaderboard := Scoring.GenerateLeaderboard(players);
      var winner := Scoring.GetWinner(finalLeaderboard);
      out := GameOverAnnounced(finalLeaderboard, winner);
    }

    // ----- Timer callbacks -----

    /** End of the movement phase: pose the drawn question and run the loop,
        which arms the question timer. Only that game's record and timer
        change. */
    method MovementTimerFired(gameId: Id, drawn: Option<Question>, now: int)
      requires Valid()
      modifies this, playerManager, gameManager
      ensures Valid()
      ensures gameManager.games.keys == old(gameManager.games.keys)
      ensures playerManager.players == old(playerManager.players)
      ensures gameId in old(gameManager.games.entries) && drawn.Some? ==>
                && gameManager.games.entries == old(gameManager.games.entries)[gameId := old(gameManager.games.entries[gameId]).(
                     currentQuestion := drawn, currentQuestionId := Some(drawn.value.questionId),
                     phase := QuestionActive, roundStartTime := Some(now),
                     roundTimer := GameManagement.GetPhaseDuration(QuestionActive), playersAnswered := {})]
                && gameManager.timers == old(gameManager.timers)[gameId := old(nextTimer)]
      ensures gameId !in old(gameManager.games.entries) || drawn.None? ==>
                gameManager.games == old(gameManager.games) && gameManager.timers == old(gameManager.timers)
      ensures roomCountdowns == old(roomCountdowns) && roomCountdownSeconds == old(roomCountdownSeconds)
      ensures playerManager.socketToPlayer == old(playerManager.socketToPlayer)
      ensures playerManager.usedCharacters == old(playerManager.usedCharacters)
      ensures gameManager.cancelled == old(gameManager.cancelled)
                + (if gameId in old(gameManager.games.entries) && drawn.Some? then Replaced(old(gameManager.timers), gameId) else {})
    {
      var question := gameManager.StartRound(gameId, drawn, now);
      if question.Some? {
        var emitted := StartGameLoop(gameId, now);
      }
    }

    /** End of the question time: review the answers and run the loop. Only
        that game's record and timer change, and only the room's players are
        scored. */
    method QuestionTimerFired(gameId: Id, now: int) returns (out: Emitted)
      requires Valid()
      modifies this, playerManager, gameManager
      ensures Valid()
      ensures gameManager.games.keys == old(gameManager.games.keys)
      ensures gameId !in old(gameManager.games.entries) ==>
                && out == Nothing && gameManager.games == old(gameManager.games)
                && gameManager.timers == old(gameManager.timers) && playerManager.players == old(playerManager.players)
      ensures gameId in old(gameManager.games.entries) ==>
                var g := old(gameManager.games.entries[gameId]);
                var reviewed := g.(phase := AnswerReview, roundTimer := GameManagement.GetPhaseDuration(AnswerReview));
                && gameManager.games.entries == old(gameManager.games.entries)[gameId := reviewed]
                && (g.currentQuestion.Some? ==>
                      && AnswerReviewed(out, reviewed, now, old(playerManager.players), old(playerManager.GetPlayersInRoom(g.roomId)))
                      && gameManager.timers == old(gameManager.timers)[gameId := old(nextTimer)])
                && (g.currentQuestion.None? ==>
                      && out == Nothing && gameManager.timers == old(gameManager.timers)
                      && playerManager.players == old(playerManager.players))
      ensures roomCountdowns == old(roomCountdowns) && roomCountdownSeconds == old(roomCountdownSeconds)
      ensures playerManager.socketToPlayer == old(playerManager.socketToPlayer)
      ensures playerManager.usedCharacters == old(playerManager.usedCharacters)
      ensures gameManager.cancelled == old(gameManager.cancelled)
                + (if gameId in old(gameManager.games.entries) && old(gameManager.games.entries[gameId]).currentQuestion.Some? then Replaced(old(gameManager.timers), gameId) else {})
    {
      gameManager.StartAnswerReview(gameId);
      out := StartGameLoop(gameId, now);
    }

    /** End of the review: round end, and run the loop, which arms the
        round-end timer. Only that game's record and timer change. */
    method AnswerReviewTimerFired(gameId: Id, now: int)
      requires Valid()
      modifies this, playerManager, gameManager
      ensures Valid()
      ensures gameManager.games.keys == old(gameManager.games.keys)
      ensures playerManager.players == old(playerManager.players)
      ensures gameId in old(gameManager.games.entries) ==>
                && gameManager.games.entries == old(gameManager.games.entries)[gameId := old(gameManager.games.entries[gameId]).(
                     phase := RoundEnd, roundTimer := GameManagement.GetPhaseDuration(RoundEnd))]
                && gameManager.timers == old(gameManager.timers)[gameId := old(nextTimer)]
      ensures gameId !in old(gameManager.games.entries) ==>
                gameManager.games == old(gameManager.games) && gameManager.timers == old(gameManager.timers)
      ensures roomCountdowns == old(roomCountdowns) && roomCountdownSeconds == old(roomCountdownSeconds)
      ensures playerManager.socketToPlayer == old(playerManager.socketToPlayer)
      ensures playerManager.usedCharacters == old(playerManager.usedCharacters)
      ensures gameManager.cancelled == old(gameManager.cancelled)
                + (if gameId in old(gameManager.games.entries) then Replaced(old(gameManager.timers), gameId) else {})
    {
      gameManager.StartRoundEnd(gameId);
      var emitted := StartGameLoop(gameId, now);
    }

    /** End of the round: the next round's movement phase, or, after the last
        round, game over with the final leaderboard. Only that game's record
        and timer change. */
    method RoundEndTimerFired(gameId: Id, now: int) returns (out: Emitted)
      requires Valid()
      modifies this, gameManager
      ensures Valid()
      ensures gameManager.games.keys == old(gameManager.games.keys)
      ensures gameId !in old(gameManager.games.entries) ==>
                out == Nothing && gameManager.games == old(gameManager.games) && gameManager.timers == old(gameManager.timers)
      ensures gameId in old(gameManager.games.entries) ==>
                var g := old(gameManager.games.entries[gameId]);
                if g.currentRound < g.totalRounds then
                  && gameManager.games.entries == old(gameManager.games.entries)[gameId := g.(
                       currentRound := g.currentRound + 1, currentQuestion := None, currentQuestionId := None,
                       phase := Movement, roundTimer := GameManagement.GetPhaseDuration(Movement))]
                  && gameManager.timers == old(gameManager.timers)[gameId := old(nextTimer)]
                  && out == Nothing
                else
                  && gameManager.games.entries == old(gameManager.games.entries)[gameId := g.(phase := GameOver, isGameOver := true)]
                  && gameManager.timers == old(gameManager.timers) - {gameId}
                  && GameOverOf(out, gameManager.games.entries[gameId])
      ensures roomCountdowns == old(roomCountdowns) && roomCountdownSeconds == old(roomCountdownSeconds)
      ensures gameManager.cancelled == old(gameManager.cancelled)
                + (if gameId in old(gameManager.games.entries) then Replaced(old(gameManager.timers), gameId) else {})
    {
      ghost var entries0 := gameManager.games.entries;
      var hasNextRound := BeginNextRound(gameId);
      if hasNextRound {
        out := Nothing;
      } else {
        ghost var ended := gameManager.games.entries;
        out := FinishGame(gameId);
        if gameId in entries0 {
          // ending an ended game again changes nothing further
          ghost var over := entries0[gameId].(phase := GameOver, isGameOver := true);
          assert ended == entries0[gameId := over];
          assert over.(phase := GameOver, isGameOver := true) == over;
          UpdateTwice(entries0, gameId, over, over);
        }
      }
    }

    /** The round-end step of the game: the next round's movement phase with
        its timer armed, or game over with the game's timer cleared. */
    method BeginNextRound(gameId: Id) returns (hasNextRound: bool)
      requires Valid()
      modifies this, gameManager
      ensures Valid()
      ensures gameManager.games.keys == old(gameManager.games.keys)
      ensures gameId !in old(gameManager.games.entries) ==>
                !hasNextRound && gameManager.games == old(gameManager.games) && gameManager.timers == old(gameManager.timers)
      ensures gameId in old(gameManager.games.entries) ==>
                var g := old(gameManager.games.entries[gameId]);
                && (hasNextRound <==> g.currentRound < g.totalRounds)
                && (hasNextRound ==>
                      && gameManager.games.entries == old(gameManager.games.entries)[gameId := g.(
                           currentRound := g.currentRound + 1, currentQuestion := None, currentQuestionId := None,
                           phase := Movement, roundTimer := GameManagement.GetPhaseDuration(Movement))]
                      && gameManager.timers == old(gameManager.timers)[gameId := old(nextTimer)])
                && (!hasNextRound ==>
                      && gameManager.games.entries == old(gameManager.games.entries)[gameId := g.(phase := GameOver, isGameOver := true)]
                      && gameManager.timers == old(gameManager.timers) - {gameId})
      ensures roomCountdowns == old(roomCountdowns) && roomCountdownSeconds == old(roomCountdownSeconds)
      ensures gameManager.cancelled == old(gameManager.cancelled)
                + (if gameId in old(gameManager.games.entries) then Replaced(old(gameManager.timers), gameId) else {})
    {
      hasNextRound := gameManager.NextRound(gameId);
      if hasNextRound {
        // the loop's dispatch for the movement phase just entered
        HandleMovementPhase(gameId);
      }
    }

    /** The last round is over: game over, and the loop announces the final
        leaderboard. */
    method FinishGame(gameId: Id) returns (out: Emitted)
      requires Valid()
      modifies gameManager
      ensures Valid()
      ensures gameManager.games.keys == old(gameManager.games.keys)
      ensures gameId !in old(gameManager.games.entries) ==>
                out == Nothing && gameManager.games == old(gameManager.games) && gameManager.timers == old(gameManager.timers)
      ensures gameId in old(gameManager.games.entries) ==>
                && gameManager.games.entries == old(gameManager.games.entries)[gameId :=
                     old(gameManager.games.entries[gameId]).(phase := GameOver, isGameOver := true)]
                && gameManager.timers == old(gameManager.timers) - {gameId}
                && GameOverOf(out, gameManager.games.entries[gameId])
      ensures gameManager.cancelled == old(gameManager.cancelled)
                + (if gameId in old(gameManager.games.entries) then Replaced(old(gameManager.timers), gameId) else {})
    {
      gameManager.EndGame(gameId);
      // the loop's dispatch for game over (or nothing, for an unknown game)
      out := HandleGameOver(gameId);
    }

    /** The callback `handleGameOver` schedules 30000 ms after game over: the
        game is forgotten, with its timer. The delay itself is not modelled. */
    method GameRemovalTimerFired(gameId: Id)
      requires Valid()
      modifies gameManager
      ensures Valid()
      ensures gameManager.games == old(gameManager.games).Remove(gameId)
      ensures gameManager.timers == old(gameManager.timers) - {gameId}
      ensures gameManager.cancelled == old(gameManager.cancelled) + Replaced(old(gameManager.timers), gameId)
    {
      gameManager.RemoveGame(gameId);
    }
  }
}
