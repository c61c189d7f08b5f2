# Quiz server core in Dafny

This project models the backend core of a multi-room, multi-round quiz
server. It covers four services and the handler that drives them:

- **Scoring** (`scoring.dfy`, module `Scoring`). A correct answer scores 100
  points plus a speed bonus of up to 50. The bonus is whole within the first
  second and then decays linearly to 0 at 8000 ms, rounded down as the
  program's binary64 arithmetic rounds it. The module also builds the
  per-player score updates of a round, and the leaderboard: players ordered by
  score, then by correct answers, ties kept in arrival order, ranked from 1.
  It picks the winner and the top N.
- **Game registry** (`game_manager.dfy`, class `GameManagement.GameManager`).
  This is the phase state machine. It moves each game WAITING → MOVEMENT →
  QUESTION_ACTIVE → ANSWER_REVIEW → ROUND_END → MOVEMENT … → GAME_OVER, for at
  most 20 rounds. It tracks the set of players who answered. Each game has one
  timer slot, and storing a timer cancels the one it replaces.
- **Room registry** (`room_manager.dfy`, class `RoomRegistry.RoomManager`).
  Rooms hold at most 10 players. Auto-assignment goes through a cached
  "current" room. Joining twice is idempotent, and a game starts at most once.
  An emptied room that has not started is reclaimed, and so is an empty room
  older than an hour.
- **Player registry** (`player_manager.dfy`, class
  `PlayerRegistry.PlayerManager`). It holds players by id and an index from
  socket to player. Avatars come from ten names, handed out without repeats
  until all ten are taken, then the pool starts over. The registry updates
  score, position and connectivity, and answers room lookups.
- **Phase driver** (`socket_handlers.dfy`, class
  `SocketHandling.SocketHandlers`). This handler turns connection events and
  timer callbacks into registry calls:
  - connection, movement, start request and disconnect;
  - the per-room start countdown;
  - game start and the phase loop;
  - scoring at answer review, and the final leaderboard at game over.

  Each `setTimeout` / `setInterval` callback is a method of its own (`…Fired`,
  `CountdownTick`). A timer handle is a natural-number token drawn from a
  counter, and a ghost set records every handle passed to `clearTimeout`.

Shared records are in `types.dfy`. `ordered_map.dfy` models a JavaScript
`Map`: its keys are kept in insertion order, because iteration order decides
which room is assigned, which game `getGameByRoom` finds, and how leaderboard
ties break.

Each registry is a class whose fields the methods reassign. `Valid()` states
the invariants a registry keeps:

- every record sits under its own id;
- every game is within 0..20 rounds, and a game posing a question has a
  question and a start time;
- every room is within capacity and has no duplicate members;
- the cached room exists and has not started;
- the socket index points at players on that socket;
- the avatar pool holds only avatar names;
- no stored timer has been cancelled, and no timer is stored for two games.

Inputs the environment supplies are parameters:

- the clock (`now`);
- fresh ids (what `uuidv4` returns);
- the random username number and avatar pick;
- the drawn question.

Facts of the code that the model keeps as written:

- The question timer in `backend/src/handlers/socketHandlers.ts:409` calls
  `gameManager.eliminateSlowPlayers`, and lines 184 and 414 read
  `requiredPlayersForNextRound`. Neither exists in
  `backend/src/services/GameManager.ts` or in the `GameState` type, so the
  model has no elimination.
- `nextRound` (`GameManager.ts:141`) ends the game when
  `currentRound >= totalRounds`; the model uses the same `>=` test.
- The speed bonus decays over `ROUND_DURATION = 8000` ms
  (`ScoringService.ts:5`). The question phase lasts
  `QUESTION_PHASE_DURATION = 15000` ms (`GameManager.ts:7`). Both constants
  are modelled with these values.

## Model

| member | source | states |
|---|---|---|
| Scoring.SpeedBonus | backend/src/services/ScoringService.ts:29-40 | bonus in 0..50; 50 within the first 1000 ms; 0 from 8000 ms on; in between, the exact floor of 50·(8000−t)/8000, except at the seven `FLOAT_SHORTFALL` times, where that quotient is whole and the bonus is one less, as the binary64 evaluation gives |
| Scoring.CalculateScore | backend/src/services/ScoringService.ts:11-24 | a wrong answer scores 0 whatever the timing; a right one scores 100..150, 150 within the first second, 100 from 8000 ms on |
| Scoring.SpeedBonusNonIncreasing | backend/src/services/ScoringService.ts:29-40 | faster is never worse: the bonus does not grow with the time taken, the binary64 shortfalls included |
| Scoring.ScoreNonIncreasingInAnswerTime | backend/src/services/ScoringService.ts:11-24 | for a right answer, a later answer never scores more |
| Scoring.GenerateScoreUpdates | backend/src/services/ScoringService.ts:45-67 | one update per player, in input order: right iff the player's door is the correct door, points from the answer time (a missing or zero time falls back to `now`), total = score + points |
| Scoring.Insert | backend/src/services/ScoringService.ts:82-93 | one insertion step of the sort adds exactly the new entry (length and multiset) |
| Scoring.InsertSorted | backend/src/services/ScoringService.ts:82-93 | inserting into an ordered list keeps it ordered by score, then correct answers |
| Scoring.SortEntries | backend/src/services/ScoringService.ts:82-93 | the reference sort yields a sorted permutation of its input |
| Scoring.InsertKeyFilter | backend/src/services/ScoringService.ts:91-92 | an inserted entry goes ahead of every entry with its key that was already there |
| Scoring.SortEntriesStable | backend/src/services/ScoringService.ts:91-92 | the sort keeps entries with equal score and correct count in their input order |
| Scoring.SortEntriesOfSorted | backend/src/services/ScoringService.ts:82-93 | an already ordered list is left unchanged |
| Scoring.GenerateLeaderboard | backend/src/services/ScoringService.ts:72-101 | the board is a leaderboard of the players: a permutation of their entries, ordered by score then correct answers, stable on ties, rank = position + 1 |
| Scoring.RankedSortIsLeaderboard | backend/src/services/ScoringService.ts:95-98 | numbering the stably sorted entries from 1 gives a leaderboard |
| Scoring.SortedByKeyFiltersUnique | backend/src/services/ScoringService.ts:82-93 | two ordered lists with the same entries per key, in the same order, are equal: the ordering determines the list |
| Scoring.LeaderboardDeterministic | backend/src/services/ScoringService.ts:72-101 | two leaderboards of the same player list are identical, so generating it again gives the same board |
| Scoring.GetWinner | backend/src/services/ScoringService.ts:106-108 | a winner exists iff the leaderboard is non-empty |
| Scoring.WinnerTopsLeaderboard | backend/src/services/ScoringService.ts:106-108 | the winner of a non-empty room's leaderboard has rank 1 and no player outranks it |
| Scoring.HeadTopsEntry | backend/src/services/ScoringService.ts:106-108 | no player's entry outranks the head of a sorted permutation of the entries |
| Scoring.GetTopPlayers | backend/src/services/ScoringService.ts:113-115 | `slice(0, count)`: a prefix of length min(count, n), or n + count for a negative count |
| Scoring.TopPlayersOutrankRest | backend/src/services/ScoringService.ts:113-115 | the top list holds ranks 1..k, and no entry left out outranks one in it |
| Scoring.SortedPrefixTopsRest | backend/src/services/ScoringService.ts:113-115 | in an ordered board, nothing after position n outranks anything before it |
| OrderedMaps.OrderedMap.Put | backend/src/services/GameManager.ts:36 | `Map.set`: the value is stored; a new key goes last in iteration order and an existing key keeps its place |
| OrderedMaps.OrderedMap.Remove | backend/src/services/GameManager.ts:235 | `Map.delete`: the key and its value are gone, the rest stays, and the key order still lists each remaining key once |
| OrderedMaps.OrderedMap.Values | backend/src/services/GameManager.ts:242 | `Array.from(map.values())`: the values in key order |
| GameManagement.GetPhaseDuration | backend/src/services/GameManager.ts:192-205 | a positive duration exactly for the timed phases (movement, question, review, round end), 15000 ms for the question phase, 0 otherwise |
| GameManagement.NewGame | backend/src/services/GameManager.ts:20-34 | a new game: WAITING, round 0 of 20, no question, nobody answered, not over, the given roster |
| GameManagement.AllAnsweredIffRosterCovered | backend/src/services/GameManager.ts:105-110 | when the roster has no repeats and only roster players answer, the count check holds iff every roster player answered |
| GameManagement.FirstGameInRoom | backend/src/services/GameManager.ts:50-57 | the first game in creation order whose room matches; none iff no game has that room |
| GameManagement.GameManager.constructor | backend/src/services/GameManager.ts:11-13 | no games, no timers |
| GameManagement.GameManager.CreateGame | backend/src/services/GameManager.ts:18-38 | registers `NewGame` under the fresh id, last in order; timers untouched |
| GameManagement.GameManager.GetGame | backend/src/services/GameManager.ts:43-45 | the record under the id, or none iff unknown |
| GameManagement.GameManager.GetGameByRoom | backend/src/services/GameManager.ts:50-57 | the scan returns the first game of the room in creation order; none iff no game has that room |
| GameManagement.GameManager.StartGame | backend/src/services/GameManager.ts:62-68 | MOVEMENT with round 1, nothing else changed; an unknown id changes nothing |
| GameManagement.GameManager.StartRound | backend/src/services/GameManager.ts:73-90 | poses the drawn question: QUESTION_ACTIVE, start time `now`, 15000 ms, nobody answered; returns null and changes nothing for an unknown game or an empty draw |
| GameManagement.GameManager.RecordPlayerDoor | backend/src/services/GameManager.ts:95-100 | adds the player to the answered set (set insertion, so recording twice is recording once); unknown game: no change |
| GameManagement.GameManager.HaveAllPlayersAnswered | backend/src/services/GameManager.ts:105-110 | true iff the game exists and at least as many players answered as are on the roster |
| GameManagement.GameManager.StartAnswerReview | backend/src/services/GameManager.ts:115-121 | ANSWER_REVIEW with 5000 ms, nothing else changed; unknown game: no change |
| GameManagement.GameManager.StartRoundEnd | backend/src/services/GameManager.ts:126-132 | ROUND_END with 2000 ms, nothing else changed; unknown game: no change |
| GameManagement.GameManager.NextRound | backend/src/services/GameManager.ts:137-153 | true iff round < total rounds: next round, no question, MOVEMENT, 3000 ms; otherwise GAME_OVER, over, round unchanged, timer cancelled and dropped; rounds never pass 20 (kept by `Valid`) |
| GameManagement.GameManager.EndGame | backend/src/services/GameManager.ts:158-171 | GAME_OVER and over; its timer, if any, is cancelled and no timer is left for the game; unknown game: no change |
| GameManagement.GameManager.GetCurrentQuestion | backend/src/services/GameManager.ts:176-179 | the game's current question, or none |
| GameManagement.GameManager.GetCorrectAnswer | backend/src/services/GameManager.ts:184-187 | the current question's door iff there is a current question |
| GameManagement.GameManager.SetGameTimer | backend/src/services/GameManager.ts:210-217 | stores the new timer as the game's only one and cancels the one it replaces |
| GameManagement.GameManager.ClearGameTimer | backend/src/services/GameManager.ts:222-228 | cancels and drops the game's timer if it has one; games untouched |
| GameManagement.GameManager.RemoveGame | backend/src/services/GameManager.ts:233-236 | cancels the timer and deletes the game: neither the game nor a timer for it remains |
| GameManagement.GameManager.GetAllGames | backend/src/services/GameManager.ts:241-243 | exactly the stored games, one per id |
| RoomRegistry.NewRoom | backend/src/services/RoomManager.ts:16-24 | a new room: no players, capacity 10, minimum 1, not started, no game |
| RoomRegistry.JoinKeepsRoomInvariant | backend/src/services/RoomManager.ts:66-82 | a join keeps the roster within capacity and free of repeats; the player is on it afterwards iff the room had room or they were already there; nobody else changes |
| RoomRegistry.JoinIdempotent | backend/src/services/RoomManager.ts:76-80 | joining twice is joining once |
| RoomRegistry.LeaveUndoesJoin | backend/src/services/RoomManager.ts:76-90 | a newcomer who joins and then leaves leaves the room as it was |
| RoomRegistry.LeaveKeepsRoomInvariant | backend/src/services/RoomManager.ts:90 | leaving keeps the invariant, removes every occurrence of the player and keeps everybody else |
| RoomRegistry.ActiveRooms | backend/src/services/RoomManager.ts:150 | exactly the rooms with at least one player |
| RoomRegistry.RoomManager.constructor | backend/src/services/RoomManager.ts:7-9 | no rooms, no cached room |
| RoomRegistry.RoomManager.CreateRoom | backend/src/services/RoomManager.ts:14-28 | registers `NewRoom` under the fresh id; the cache is untouched |
| RoomRegistry.RoomManager.GetRoom | backend/src/services/RoomManager.ts:33-35 | the room under the id, or none iff unknown |
| RoomRegistry.RoomManager.FindOrCreateAvailableRoom | backend/src/services/RoomManager.ts:40-61 | always a stored room that is neither full nor started, which becomes the cached room; the cached room if still eligible; else the first eligible room in creation order, with the registry unchanged; else a new room under the fresh id, appended last |
| RoomRegistry.RoomManager.FirstEligible | backend/src/services/RoomManager.ts:50-55 | the first eligible room in creation order, or none iff no room is eligible |
| RoomRegistry.RoomManager.AddPlayerToRoom | backend/src/services/RoomManager.ts:66-82 | false iff the room is unknown or full (a full room turns away members too); otherwise true, appending the player only if absent |
| RoomRegistry.RoomManager.RemovePlayerFromRoom | backend/src/services/RoomManager.ts:87-100 | takes the player off the roster; a room then empty and not started is deleted, and the cache dropped if it named it; unknown room: no change |
| RoomRegistry.RoomManager.CanStartGame | backend/src/services/RoomManager.ts:105-112 | true iff the room exists, has at least its minimum of players and has not started |
| RoomRegistry.RoomManager.StartGame | backend/src/services/RoomManager.ts:117-127 | marks only that room started (so it cannot start again) and drops the cache if it named it |
| RoomRegistry.RoomManager.SetGameState | backend/src/services/RoomManager.ts:132-137 | attaches the game to that room only; unknown room: no change |
| RoomRegistry.RoomManager.GetAllRooms | backend/src/services/RoomManager.ts:142-144 | the rooms in creation order |
| RoomRegistry.RoomManager.GetActiveRooms | backend/src/services/RoomManager.ts:149-151 | exactly the stored rooms that have at least one player |
| RoomRegistry.RoomManager.CleanupEmptyRooms | backend/src/services/RoomManager.ts:156-168 | deletes exactly the rooms that are empty and more than an hour old, started or not; keeps every other room as it was; the remaining ids keep their creation order (`FreshKeys` of the old order); drops the cache if it named a deleted room |
| RoomRegistry.RoomManager.DropIfStale | backend/src/services/RoomManager.ts:161-166 | one step of the clean-up: the registry becomes `DropStale` of the old one (that room removed from entries and order if stale, nothing else), clearing the cache if it named it |
| RoomRegistry.FreshKeys | backend/src/services/RoomManager.ts:160-167 | the ids of the given order whose rooms are not stale, in that order |
| RoomRegistry.DropStaleAllKeys | backend/src/services/RoomManager.ts:160-167 | removing the stale rooms one by one in creation order keeps exactly the rooms that are not stale, unchanged, and leaves the order `FreshKeys` of the old one |
| PlayerRegistry.CharacterSetSize | backend/src/services/PlayerManager.ts:5-16 | ten distinct avatar names |
| PlayerRegistry.Decimal | backend/src/services/PlayerManager.ts:56 | a numeral without a leading zero |
| PlayerRegistry.DecimalRoundTrip | backend/src/services/PlayerManager.ts:56 | reading the numeral back gives the number |
| PlayerRegistry.GenerateUsername | backend/src/services/PlayerManager.ts:54-57 | `Player_` followed by the decimal numeral of a number below 10000, 8 to 11 characters |
| PlayerRegistry.Unused | backend/src/services/PlayerManager.ts:69 | holds exactly the names not in use (membership; the order is not stated) |
| PlayerRegistry.SomeCharacterFree | backend/src/services/PlayerManager.ts:62-70 | after the reset there is always a free name to pick |
| PlayerRegistry.NewPlayer | backend/src/services/PlayerManager.ts:31-43 | a new player: score 0, no correct answers, at the origin, no door, no answer time, connected |
| PlayerRegistry.InRoom | backend/src/services/PlayerManager.ts:154 | holds exactly the players of that room, no id twice when none was before (membership; the order is not stated) |
| PlayerRegistry.Connected | backend/src/services/PlayerManager.ts:161 | holds exactly the connected players (membership; the order is not stated) |
| PlayerRegistry.PlayerManager.constructor | backend/src/services/PlayerManager.ts:18-21 | no players, no sockets, no avatars in use |
| PlayerRegistry.PlayerManager.AssignCharacter | backend/src/services/PlayerManager.ts:62-74 | the pool is emptied once all ten are used; the pick is an avatar name not in the pool, and is then added to it |
| PlayerRegistry.PlayerManager.CreatePlayer | backend/src/services/PlayerManager.ts:26-49 | registers `NewPlayer` with the generated username and an assigned avatar, and maps the socket to it |
| PlayerRegistry.PlayerManager.GetPlayer | backend/src/services/PlayerManager.ts:79-81 | the player under the id, or none iff unknown |
| PlayerRegistry.PlayerManager.GetPlayerBySocket | backend/src/services/PlayerManager.ts:86-89 | the socket's player, on that socket; none for an unknown socket or an empty id |
| PlayerRegistry.PlayerManager.UpdatePlayerPosition | backend/src/services/PlayerManager.ts:94-100 | changes only that player's position and door |
| PlayerRegistry.PlayerManager.UpdatePlayerScore | backend/src/services/PlayerManager.ts:105-113 | adds the points and counts a right answer iff `isCorrect`, for that player only; unknown id: no change |
| PlayerRegistry.PlayerManager.RecordAnswerTime | backend/src/services/PlayerManager.ts:118-123 | stamps only that player's answer time |
| PlayerRegistry.PlayerManager.DisconnectPlayer | backend/src/services/PlayerManager.ts:128-136 | marks the socket's player disconnected, keeps the record and the socket index, returns it; none for an unknown socket |
| PlayerRegistry.PlayerManager.RemovePlayer | backend/src/services/PlayerManager.ts:141-148 | deletes the player and its socket entry and frees its avatar name |
| PlayerRegistry.PlayerManager.GetPlayersInRoom | backend/src/services/PlayerManager.ts:153-155 | exactly the stored players of the room, each under its own id, no id twice |
| PlayerRegistry.PlayerManager.GetConnectedPlayersInRoom | backend/src/services/PlayerManager.ts:160-162 | exactly the connected players among those of the room |
| PlayerRegistry.PlayerManager.ResetPlayerStats | backend/src/services/PlayerManager.ts:167-175 | zero score and correct count, no answer time, no door, for that player only |
| PlayerRegistry.PlayerManager.GetPlayerCount | backend/src/services/PlayerManager.ts:180-182 | the number of stored players |
| SocketHandling.ApplyScores | backend/src/handlers/socketHandlers.ts:446-448 | applying the updates in turn keeps the same player ids |
| SocketHandling.ApplyScoresEffect | backend/src/handlers/socketHandlers.ts:446-448 | with one update per player, each updated player gets exactly its own update and every other player is untouched |
| SocketHandling.RoundUpdatesApplied | backend/src/handlers/socketHandlers.ts:438-448 | the round's updates name distinct players; after they are applied, each player's score rose by its points, its correct count rose iff right, and the score equals the update's total |
| SocketHandling.SocketHandlers.constructor | backend/src/handlers/socketHandlers.ts:18-28 | fresh registries and no countdowns |
| SocketHandling.SocketHandlers.NewTimer | backend/src/handlers/socketHandlers.ts:377 | a timer handle never stored or cancelled before |
| SocketHandling.SocketHandlers.HandleConnection | backend/src/handlers/socketHandlers.ts:33-86 | the new player is appended to the players and found on the socket; the room is the cached one if still eligible, else the first eligible in creation order, else a new room under the fresh id; that room, and only it, gets the player on its roster (new rooms appended last); the cache names it; the countdown is started exactly when the room had none. The avatar is a name of the set not in the pool after its reset, the pool becomes that reset pool plus it, and the socket index gains only this socket. |
| SocketHandling.SocketHandlers.SeatNewPlayer | backend/src/handlers/socketHandlers.ts:37-39 | creates the player (appended to the players, found on the socket) and puts them on that room's roster; no other room, no room order and no cache change; the room can then start. The avatar is a name of the set not in the pool after its reset, the pool becomes that reset pool plus it, and the socket index gains only this socket. |
| SocketHandling.SocketHandlers.JoinAssignedRoom | backend/src/handlers/socketHandlers.ts:36-39 | the room choice of `findOrCreateAvailableRoom` (cached, first eligible, or new and appended) and the new player on that room's roster only; the cache names it and it can start. The avatar is a name of the set not in the pool after its reset, the pool becomes that reset pool plus it, and the socket index gains only this socket. |
| SocketHandling.SocketHandlers.HandlePlayerMovement | backend/src/handlers/socketHandlers.ts:112-138 | an unknown socket changes nothing; otherwise position and door are recorded, and the answer time and the answered set change only in QUESTION_ACTIVE with a door; nothing else changes; the socket index and the avatar pool are unchanged |
| SocketHandling.SocketHandlers.MovePlayer | backend/src/handlers/socketHandlers.ts:116-127 | the same, once the player and the room's game are known; the socket index and the avatar pool are unchanged |
| SocketHandling.SocketHandlers.RecordAnswer | backend/src/handlers/socketHandlers.ts:124-127 | stamps the answer time and adds the player to the game's answered set, nothing else; the socket index and the avatar pool are unchanged |
| SocketHandling.SocketHandlers.HandleStartGameRequest | backend/src/handlers/socketHandlers.ts:143-148 | an unknown socket or a started room changes nothing; otherwise only that room is started and attached, the new game record is appended with round 1's MOVEMENT, and the movement timer is armed; countdowns untouched |
| SocketHandling.SocketHandlers.HandleDisconnect | backend/src/handlers/socketHandlers.ts:206-223 | marks the socket's player disconnected and changes no other player, the player order or the socket index; the room keeps them; the avatar pool is unchanged |
| SocketHandling.SocketHandlers.CheckAndStartGame | backend/src/handlers/socketHandlers.ts:228-243 | starts a 10-second countdown iff the room can start and has none running; never a second one |
| SocketHandling.SocketHandlers.StartCountdown | backend/src/handlers/socketHandlers.ts:248-291 | records the seconds left and a fresh interval for the room |
| SocketHandling.SocketHandlers.CancelCountdown | backend/src/handlers/socketHandlers.ts:297-305 | removes the room's countdown, if any |
| SocketHandling.SocketHandlers.CountdownTick | backend/src/handlers/socketHandlers.ts:260-288 | no countdown: no change; above one second: one second less, nothing else; at zero: the countdown is removed and, only if the room can still start, that room alone is started and its new game appended and armed; otherwise no room or game changes |
| SocketHandling.SocketHandlers.StartGame | backend/src/handlers/socketHandlers.ts:310-332 | unknown or started room: no change; otherwise only that room is started and attached (cache dropped if it named it), the new game of its roster is appended in round 1's MOVEMENT, and the movement timer is armed |
| SocketHandling.SocketHandlers.LaunchGame | backend/src/handlers/socketHandlers.ts:316-330 | only that room started and attached, the game created from the roster and appended in round 1's MOVEMENT; timers untouched |
| SocketHandling.SocketHandlers.AttachGame | backend/src/handlers/socketHandlers.ts:317-321 | only that room is marked started and points to the game; room order kept; cache dropped if it named it |
| SocketHandling.SocketHandlers.FirstRound | backend/src/handlers/socketHandlers.ts:320-330 | a new game of the roster in round 1's MOVEMENT appended last; no other game or timer changes |
| SocketHandling.SocketHandlers.StartGameLoop | backend/src/handlers/socketHandlers.ts:337-360 | dispatch by phase: a timer is armed for movement, round end and (with a question) the question and review phases; a review reveals the scored answer; game over announces the final leaderboard; WAITING and unknown games do nothing; the socket index and the avatar pool are unchanged; exactly the replaced timer handle is cancelled |
| SocketHandling.SocketHandlers.ArmGameTimer | backend/src/handlers/socketHandlers.ts:377-384 | a fresh timer becomes the game's only timer; exactly the replaced timer handle is cancelled |
| SocketHandling.SocketHandlers.HandleMovementPhase | backend/src/handlers/socketHandlers.ts:365-385 | arms the movement timer for a known game; games unchanged; exactly the replaced timer handle is cancelled |
| SocketHandling.SocketHandlers.HandleQuestionPhase | backend/src/handlers/socketHandlers.ts:390-424 | arms the question timer iff the game has a current question; games unchanged; exactly the replaced timer handle is cancelled |
| SocketHandling.SocketHandlers.HandleAnswerReviewPhase | backend/src/handlers/socketHandlers.ts:429-471 | with a current question: reveals its door, one update per player of the room scored from the round start, the players become exactly `ApplyScores` of the old ones (same order), the room's leaderboard after the updates, and the round-end timer armed; otherwise no change; the socket index and the avatar pool are unchanged; exactly the replaced timer handle is cancelled |
| SocketHandling.SocketHandlers.ScoreRound | backend/src/handlers/socketHandlers.ts:437-452 | the updates match the room's players one to one; the players become exactly `ApplyScores` of the old ones in the same order; the leaderboard is that of the updated room; the socket index and the avatar pool are unchanged |
| SocketHandling.SocketHandlers.ApplyScoreUpdates | backend/src/handlers/socketHandlers.ts:446-448 | the players are exactly the result of applying each update in turn |
| SocketHandling.SocketHandlers.HandleRoundEndPhase | backend/src/handlers/socketHandlers.ts:476-497 | arms the round-end timer for a known game; games unchanged; exactly the replaced timer handle is cancelled |
| SocketHandling.SocketHandlers.HandleGameOver | backend/src/handlers/socketHandlers.ts:502-525 | the final leaderboard of the room's players, and its first entry as the winner |
| SocketHandling.SocketHandlers.MovementTimerFired | backend/src/handlers/socketHandlers.ts:377-382 | with a drawn question: only that game becomes QUESTION_ACTIVE with that question, start time `now`, the question-phase timer value and nobody answered, and its question timer is armed; otherwise no change; players untouched; the room countdowns are unchanged; the socket index and the avatar pool are unchanged; exactly the replaced timer handle is cancelled |
| SocketHandling.SocketHandlers.QuestionTimerFired | backend/src/handlers/socketHandlers.ts:407-421 | only that game becomes ANSWER_REVIEW with the review timer value; with a question, the review of the scored answer and the round-end timer; without one, no timer or player change; unknown game: no change; the room countdowns are unchanged; the socket index and the avatar pool are unchanged; exactly the replaced timer handle is cancelled |
| SocketHandling.SocketHandlers.AnswerReviewTimerFired | backend/src/handlers/socketHandlers.ts:465-468 | only that game becomes ROUND_END with the round-end timer value, and its timer is armed; players untouched; unknown game: no change; the room countdowns are unchanged; the socket index and the avatar pool are unchanged; exactly the replaced timer handle is cancelled |
| SocketHandling.SocketHandlers.RoundEndTimerFired | backend/src/handlers/socketHandlers.ts:486-494 | before the last round: only that game moves to the next round's MOVEMENT with no question, and its timer is armed; after it: GAME_OVER, its timer removed, and the final leaderboard with its winner; the room countdowns are unchanged; exactly the replaced timer handle is cancelled |
| SocketHandling.SocketHandlers.BeginNextRound | backend/src/handlers/socketHandlers.ts:487-489 | before the last round: the next round's MOVEMENT with its timer armed; after it: GAME_OVER with its timer removed; only that game changes; the room countdowns are unchanged; exactly the replaced timer handle is cancelled |
| SocketHandling.SocketHandlers.FinishGame | backend/src/handlers/socketHandlers.ts:490-493 | only that game is over, only its timer is removed, and the final leaderboard is announced; unknown game: no change; exactly the replaced timer handle is cancelled |
| SocketHandling.SocketHandlers.GameRemovalTimerFired | backend/src/handlers/socketHandlers.ts:522-524 | the game is removed from entries and order, and only its timer is removed; exactly the replaced timer handle is cancelled |

## Left out

- Broadcasting is not modelled: every `emit`, `socket.join`, `broadcastRoomState`, the log lines and payload shaping (such as the explanation text or `timeLimit`). These carry no state. Only the answer reveal and the game-over announcement are kept, as the `Emitted` result.
- `setupEventListeners` (socketHandlers.ts:91-107) is server wiring; each handler is a method the environment calls directly.
- `handleDoorCrossed` (socketHandlers.ts:153-201) is not modelled. It calls `recordDoorCrossing`, `getRoundStats`, `recordPlayerCrossing`, `canProceedToNextRound` and `prepareNextRound` and reads two fields, none of which exist in GameManager.ts or the `GameState` type.
- The elimination branch of the question timer (socketHandlers.ts:408-416) is left out for the same reason (`eliminateSlowPlayers`). `QuestionTimerFired` keeps only `startAnswerReview` and the loop.
- Real timers are not modelled. A timer handle is a token, and each callback is a method the environment may call at any time. The model records which handles were cancelled but does not show that a cancelled callback never runs.
- The question catalog and its random draw (backend/src/data/questions.ts is not part of this model) are replaced by the `drawn` parameter of `StartRound`. An empty draw is `None`.
- Randomness and ids are parameters:
  - `uuidv4` is a fresh-id parameter that must not already be in use;
  - the username number is a parameter below 10000;
  - the avatar pick is an index taken modulo the number of free names.
- `Date.now()` is a `now` parameter. Within one handler, every reading of the clock is the same `now`.
- Floating point is not modelled in general. Times are whole milliseconds, and positions are `real` pairs that are only stored.
- Scoring.SpeedBonus: the binary64 rounding of `50 * (1 - timeTaken / 8000)` (ScoringService.ts:36-37) is not derived in the model. Its effect is written out instead, as the constant `FLOAT_SHORTFALL`. The seven times 2720, 4480, 5440, 6240, 6400, 7200 and 7360 ms are the whole-millisecond times past the first second at which the exact quotient is a whole number k, but the binary64 value falls just below k. `Math.floor` then gives k − 1; for example, 2720 ms gives 32, not 33. At every other time the model's bonus is the exact floor.
- `Room.gameState` holds the game's id, not the shared `GameState` object. The aliasing between a room and its game record is not modelled.
- SocketHandling.SocketHandlers.StartGame: its movement phase is entered by calling `HandleMovementPhase`, which is what `startGameLoop` dispatches to in that phase. The room's and the game's updates are done one registry at a time (room started and attached, then the game created and moved to round 1). The calls touch different registries, so the final state is the same.
- SocketHandling.SocketHandlers.RoundEndTimerFired: it calls `HandleMovementPhase` (through `BeginNextRound`) or `FinishGame` directly, which is what `startGameLoop` dispatches to in the phase just entered.
- RoomRegistry.RoomManager.RemovePlayerFromRoom: when the room is deleted, the filtered roster is not written to it first. Nobody can see that record afterwards, unless they alias it, and aliasing is not modelled.
- A stored timer handle counts as present: Node's timer objects are always truthy, so the `if (timer)` tests reduce to a key lookup.
- SocketHandling.SocketHandlers.StartGameLoop states that a fresh timer is armed, but not which callback it will run. The callbacks are separate methods.
- The game client, `server.ts` and the manual test client are outside the core.
