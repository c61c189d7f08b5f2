/** The game phase state machine. Each game moves through
    WAITING -> MOVEMENT -> QUESTION_ACTIVE -> ANSWER_REVIEW -> ROUND_END ->
    MOVEMENT ... -> GAME_OVER, for at most TOTAL_ROUNDS rounds. Each game has a
    single timer slot: storing a new timer cancels the one it replaces. */
module GameManagement {
  import opened Types
  import opened OrderedMaps

  const TOTAL_ROUNDS := 20
  const MOVEMENT_PHASE_DURATION := 3000
  const QUESTION_PHASE_DURATION := 15000
  const ANSWER_REVIEW_DURATION := 5000
  const ROUND_END_DURATION := 2000

  /** How long a phase lasts, in milliseconds; 0 for the untimed phases. */
  function GetPhaseDuration(phase: GamePhase): (ms: int)
    ensures ms >= 0
    ensures ms > 0 <==> phase !in {Waiting, GameOver}
    ensures phase == QuestionActive ==> ms == QUESTION_PHASE_DURATION
  {
    match phase
    case Movement => MOVEMENT_PHASE_DURATION
    case QuestionActive => QUESTION_PHASE_DURATION
    case AnswerReview => ANSWER_REVIEW_DURATION
    case RoundEnd => ROUND_END_DURATION
    case _ => 0
  }

  /** The facts every game record keeps, whatever transitions it has been through. */
  ghost predicate GameInvariant(g: GameState)
  {
    && g.totalRounds == TOTAL_ROUNDS
    && 0 <= g.currentRound <= g.totalRounds
    && (g.phase == Waiting ==> g.currentRound == 0)
    && (g.phase == QuestionActive ==> g.currentQuestion.Some? && g.roundStartTime.Some?)
    && (g.phase == GameOver ==> g.isGameOver)
    && g.currentQuestionId == (if g.currentQuestion.Some? then Some(g.currentQuestion.value.questionId) else None)
  }

  /** The fresh record `createGame` builds. */
  function NewGame(gameId: Id, roomId: Id, playerIds: seq<Id>, now: int): (g: GameState)
    ensures GameInvariant(g)
    ensures g.phase == Waiting && g.currentRound == 0 && g.playersAnswered == {}
    ensures g.currentQuestion.None? && !g.isGameOver && g.playerIds == playerIds
  {
    GameState(gameId, roomId, 0, TOTAL_ROUNDS, None, None, Waiting, 0, None, {}, playerIds, false, now)
  }

  /** Every player on the roster has answered. */
  ghost predicate RosterCovered(g: GameState)
  {
    forall p :: p in g.playerIds ==> p in g.playersAnswered
  }

  /** The answered check by count agrees with "every player on the roster
      answered" when the roster has no repeats and only roster players answer. */
  lemma {:induction false} AllAnsweredIffRosterCovered(g: GameState)
    requires NoDuplicates(g.playerIds)
    requires forall p :: p in g.playersAnswered ==> p in g.playerIds
    ensures |g.playersAnswered| >= |g.playerIds| <==> RosterCovered(g)
  {
    var roster := set p | p in g.playerIds;
    DistinctCard(g.playerIds);
    assert g.playersAnswered <= roster;
    if |g.playersAnswered| >= |g.playerIds| {
      SubsetOfEqualCard(g.playersAnswered, roster);
    }
    if RosterCovered(g) {
      assert g.playersAnswered == roster;
    }
  }

  /** The first game, following `keys`, that belongs to the room. */
  function FirstGameInRoom(keys: seq<Id>, entries: map<Id, GameState>, roomId: Id): (r: Option<GameState>)
    requires forall k :: k in keys ==> k in entries
    ensures r.Some? ==> exists i :: 0 <= i < |keys| && r.value == entries[keys[i]] && r.value.roomId == roomId
                          && forall j :: 0 <= j < i ==> entries[keys[j]].roomId != roomId
    ensures r.None? <==> forall i :: 0 <= i < |keys| ==> entries[keys[i]].roomId != roomId
  {
    if |keys| == 0 then None
    else if entries[keys[0]].roomId == roomId then Some(entries[keys[0]])
    else
      var r := FirstGameInRoom(keys[1..], entries, roomId);
      assert forall i :: 1 <= i < |keys| ==> keys[i] == keys[1..][i - 1];
      r
  }

  class GameManager {
    /** The games by id, in creation order. */
    var games: OrderedMap<GameState>
    /** The single timer slot of each game. */
    var timers: map<Id, Timer>
    /** Every timer handed to clearTimeout so far. */
    ghost var cancelled: set<Timer>

    ghost predicate Valid()
      reads this
    {
      && games.Valid()
      && (forall id :: id in games.entries ==> games.entries[id].gameId == id)
      && (forall id :: id in games.entries ==> GameInvariant(games.entries[id]))
      && (forall id :: id in timers ==> timers[id] !in cancelled)
      && (forall a, b :: a in timers && b in timers && a != b ==> timers[a] != timers[b])
    }

    /** `timer` is a handle nobody has seen yet: not stored and never cancelled. */
    ghost predicate FreshTimer(timer: Timer)
      reads this
    {
      timer !in cancelled && forall id :: id in timers ==> timers[id] != timer
    }

    constructor ()
      ensures Valid()
      ensures games == Empty() && timers == map[] && cancelled == {}
    {
      games := Empty();
      timers := map[];
      cancelled := {};
    }

    /** Registers a new game for the room, in the WAITING phase with round 0. */
    method CreateGame(roomId: Id, playerIds: seq<Id>, gameId: Id, now: int) returns (game: GameState)
      requires Valid()
      requires gameId !in games.entries
      modifies this
      ensures Valid()
      ensures game == NewGame(gameId, roomId, playerIds, now)
      ensures games == old(games).Put(gameId, game)
      ensures timers == old(timers) && cancelled == old(cancelled)
    {
      game := NewGame(gameId, roomId, playerIds, now);
      games := games.Put(gameId, game);
    }

    function GetGame(gameId: Id): (r: Option<GameState>)
      reads this
      ensures r.Some? <==> gameId in games.entries
      ensures r.Some? ==> r.value == games.entries[gameId]
    {
      if gameId in games.entries then Some(games.entries[gameId]) else None
    }

    /** `getGameByRoom`: scans the games in creation order. */
    method GetGameByRoom(roomId: Id) returns (r: Option<GameState>)
      requires Valid()
      ensures r == FirstGameInRoom(games.keys, games.entries, roomId)
      ensures r.None? <==> forall id :: id in games.entries ==> games.entries[id].roomId != roomId
      ensures r.Some? ==> r.value.roomId == roomId && r.value.gameId in games.entries && games.entries[r.value.gameId] == r.value
    {
      var values := games.Values();
      var i := 0;
      while i < |values|
        invariant 0 <= i <= |values|
        invariant FirstGameInRoom(games.keys, games.entries, roomId)
                  == FirstGameInRoom(games.keys[i..], games.entries, roomId)
      {
        assert games.keys[i..][0] == games.keys[i] && games.keys[i..][1..] == games.keys[i + 1..];
        if values[i].roomId == roomId {
          return Some(values[i]);
        }
        i := i + 1;
      }
      forall id | id in games.entries ensures games.entries[id].roomId != roomId {
        var j :| 0 <= j < |games.keys| && games.keys[j] == id;
      }
      return None;
    }

    /** Moves a known game to MOVEMENT with round 1; an unknown id changes nothing. */
    method StartGame(gameId: Id)
      requires Valid()
      modifies this
      ensures Valid()
      ensures games.keys == old(games.keys)
      ensures gameId !in old(games.entries) ==> games == old(games)
      ensures gameId in old(games.entries) ==>
                games.entries == old(games.entries)[gameId := old(games.entries[gameId]).(phase := Movement, currentRound := 1)]
      ensures timers == old(timers) && cancelled == old(cancelled)
    {
      if gameId !in games.entries { return; }
      var game := games.entries[gameId];
      games := games.Put(gameId, game.(phase := Movement, currentRound := 1));
    }

    /** Poses the drawn question: QUESTION_ACTIVE, the round's clock started at
        `now`, the full question time, nobody answered yet. Returns None and
        changes nothing when the game is unknown or no question could be drawn. */
    method StartRound(gameId: Id, drawn: Option<Question>, now: int) returns (q: Option<Question>)
      requires Valid()
      modifies this
      ensures Valid()
      ensures q.Some? <==> gameId in old(games.entries) && drawn.Some?
      ensures q.Some? ==> q == drawn
      ensures games.keys == old(games.keys)
      ensures q.None? ==> games == old(games)
      ensures q.Some? ==>
                games.entries == old(games.entries)[gameId := old(games.entries[gameId]).(
                  currentQuestion := drawn, currentQuestionId := Some(drawn.value.questionId),
                  phase := QuestionActive, roundStartTime := Some(now),
                  roundTimer := GetPhaseDuration(QuestionActive), playersAnswered := {})]
      ensures timers == old(timers) && cancelled == old(cancelled)
    {
      if gameId !in games.entries { return None; }
      if drawn.None? { return None; }
      var question := drawn.value;
      var game := games.entries[gameId];
      game := game.(currentQuestion := Some(question), currentQuestionId := Some(question.questionId),
                    phase := QuestionActive, roundStartTime := Some(now),
                    roundTimer := QUESTION_PHASE_DURATION, playersAnswered := {});
      games := games.Put(gameId, game);
      return Some(question);
    }

    /** Adds the player to the game's answered set (a set: recording twice is
        the same as once); an unknown game changes nothing. */
    method RecordPlayerDoor(gameId: Id, playerId: Id)
      requires Valid()
      modifies this
      ensures Valid()
      ensures games.keys == old(games.keys)
      ensures gameId !in old(games.entries) ==> games == old(games)
      ensures gameId in old(games.entries) ==>
                games.entries == old(games.entries)[gameId := old(games.entries[gameId]).(
                  playersAnswered := old(games.entries[gameId].playersAnswered) + {playerId})]
      ensures timers == old(timers) && cancelled == old(cancelled)
    {
      if gameId !in games.entries { return; }
      var game := games.entries[gameId];
      games := games.Put(gameId, game.(playersAnswered := game.playersAnswered + {playerId}));
    }

    /** At least as many answers as players on the roster; false for an unknown game. */
    function HaveAllPlayersAnswered(gameId: Id): (all: bool)
      reads this
      ensures all ==> gameId in games.entries
      ensures gameId in games.entries ==>
                (all <==> |games.entries[gameId].playersAnswered| >= |games.entries[gameId].playerIds|)
    {
      gameId in games.entries && |games.entries[gameId].playersAnswered| >= |games.entries[gameId].playerIds|
    }

    /** ANSWER_REVIEW with the review time; an unknown game changes nothing. */
    method StartAnswerReview(gameId: Id)
      requires Valid()
      modifies this
      ensures Valid()
      ensures games.keys == old(games.keys)
      ensures gameId !in old(games.entries) ==> games == old(games)
      ensures gameId in old(games.entries) ==>
                games.entries == old(games.entries)[gameId := old(games.entries[gameId]).(
                  phase := AnswerReview, roundTimer := GetPhaseDuration(AnswerReview))]
      ensures timers == old(timers) && cancelled == old(cancelled)
    {
      if gameId !in games.entries { return; }
      var game := games.entries[gameId];
      games := games.Put(gameId, game.(phase := AnswerReview, roundTimer := ANSWER_REVIEW_DURATION));
    }

    /** ROUND_END with the round-end time; an unknown game changes nothing. */
    method StartRoundEnd(gameId: Id)
      requires Valid()
      modifies this
      ensures Valid()
      ensures games.keys == old(games.keys)
      ensures gameId !in old(games.entries) ==> games == old(games)
      ensures gameId in old(games.entries) ==>
                games.entries == old(games.entries)[gameId := old(games.entries[gameId]).(
                  phase := RoundEnd, roundTimer := GetPhaseDuration(RoundEnd))]
      ensures timers == old(timers) && cancelled == old(cancelled)
    {
      if gameId !in games.entries { return; }
      var game := games.entries[gameId];
      games := games.Put(gameId, game.(phase := RoundEnd, roundTimer := ROUND_END_DURATION));
    }

    /** After the last round ends the game and answers false; otherwise starts
        the next round's movement phase with no question and answers true. */
    method NextRound(gameId: Id) returns (continues: bool)
      requires Valid()
      modifies this
      ensures Valid()
      ensures games.keys == old(games.keys)
      ensures gameId !in old(games.entries) ==> !continues && games == old(games) && timers == old(timers)
      ensures gameId in old(games.entries) ==>
                var g := old(games.entries[gameId]);
                && (continues <==> g.currentRound < g.totalRounds)
                && (continues ==>
                      && games.entries == old(games.entries)[gameId := g.(
                           currentRound := g.currentRound + 1, currentQuestion := None,
                           currentQuestionId := None, phase := Movement,
                           roundTimer := GetPhaseDuration(Movement))]
                      && timers == old(timers))
                && (!continues ==>
                      && games.entries == old(games.entries)[gameId := g.(phase := GameOver, isGameOver := true)]
                      && timers == old(timers) - {gameId})
      ensures cancelled == old(cancelled) + (if gameId in old(games.entries) && gameId in old(timers) && !continues
                                             then {old(timers)[gameId]} else {})
    {
      if gameId !in games.entries { return false; }
      var game := games.entries[gameId];
      if game.currentRound >= game.totalRounds {
        EndGame(gameId);
        return false;
      }
      games := games.Put(gameId, game.(currentRound := game.currentRound + 1, currentQuestion := None,
                                       currentQuestionId := None, phase := Movement,
                                       roundTimer := MOVEMENT_PHASE_DURATION));
      return true;
    }

    /** GAME_OVER, marked over, and its timer (if any) cancelled and dropped;
        an unknown game changes nothing, not even its timer slot. */
    method EndGame(gameId: Id)
      requires Valid()
      modifies this
      ensures Valid()
      ensures games.keys == old(games.keys)
      ensures gameId !in old(games.entries) ==>
                games == old(games) && timers == old(timers) && cancelled == old(cancelled)
      ensures gameId in old(games.entries) ==>
                && games.entries == old(games.entries)[gameId := old(games.entries[gameId]).(
                     phase := GameOver, isGameOver := true)]
                && timers == old(timers) - {gameId}
                && cancelled == old(cancelled) + (if gameId in old(timers) then {old(timers)[gameId]} else {})
    {
      if gameId !in games.entries { return; }
      var game := games.entries[gameId];
      games := games.Put(gameId, game.(phase := GameOver, isGameOver := true));
      // the same clean-up as clearGameTimer
      ClearGameTimer(gameId);
    }

    /** The question being played, if any. */
    function GetCurrentQuestion(gameId: Id): (q: Option<Question>)
      reads this
      ensures q.Some? ==> gameId in games.entries && games.entries[gameId].currentQuestion == q
      ensures gameId in games.entries ==> q == games.entries[gameId].currentQuestion
    {
      if gameId in games.entries then games.entries[gameId].currentQuestion else None
    }

    /** The door that answers the question being played, if any. */
    function GetCorrectAnswer(gameId: Id): (door: Option<DoorOption>)
      reads this
      ensures door.Some? <==> GetCurrentQuestion(gameId).Some?
      ensures door.Some? ==> door.value == GetCurrentQuestion(gameId).value.correctAnswer
    {
      var q := GetCurrentQuestion(gameId);
      if q.Some? then Some(q.value.correctAnswer) else None
    }

    /** Stores `timer` as the game's timer, cancelling the one it replaces. */
    method SetGameTimer(gameId: Id, timer: Timer)
      requires Valid()
      requires FreshTimer(timer)
      modifies this
      ensures Valid()
      ensures games == old(games)
      ensures timers == old(timers)[gameId := timer]
      ensures cancelled == old(cancelled) + (if gameId in old(timers) then {old(timers)[gameId]} else {})
    {
      if gameId in timers {
        cancelled := cancelled + {timers[gameId]};
      }
      timers := timers[gameId := timer];
    }

    /** Cancels and drops the game's timer, if it has one. */
    method ClearGameTimer(gameId: Id)
      requires Valid()
      modifies this
      ensures Valid()
      ensures games == old(games)
      ensures timers == old(timers) - {gameId}
      ensures cancelled == old(cancelled) + (if gameId in old(timers) then {old(timers)[gameId]} else {})
    {
      if gameId in timers {
        cancelled := cancelled + {timers[gameId]};
        timers := timers - {gameId};
      }
    }

    /** Cancels the game's timer and forgets the game. */
    method RemoveGame(gameId: Id)
      requires Valid()
      modifies this
      ensures Valid()
      ensures games == old(games).Remove(gameId)
      ensures gameId !in games.entries && gameId !in timers
      ensures timers == old(timers) - {gameId}
      ensures cancelled == old(cancelled) + (if gameId in old(timers) then {old(timers)[gameId]} else {})
    {
      ClearGameTimer(gameId);
      games := games.Remove(gameId);
    }

    /** All games, in creation order. */
    function GetAllGames(): (all: seq<GameState>)
      reads this
      requires Valid()
      ensures |all| == |games.keys|
      ensures forall g :: g in all <==> exists id :: id in games.entries && games.entries[id] == g
    {
      games.Values()
    }
  }
}
