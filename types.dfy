/** The records shared by the quiz server's services: phases, doors, players,
    questions, game states, rooms, score updates and leaderboard entries. */
module Types {

  /** Identifiers (player, socket, room, game, question) are strings. */
  type Id = string

  /** Handle of a scheduled timer (what setTimeout / setInterval return). */
  type Timer = nat

  datatype Option<+T> = None | Some(value: T)

  datatype GamePhase = Waiting | Movement | QuestionActive | AnswerReview | RoundEnd | GameOver

  datatype DoorOption = A | B | C | D

  datatype DifficultyLevel = Easy | Medium | Hard

  datatype Position = Position(x: real, y: real)

  datatype Player = Player(
    playerId: Id,
    socketId: Id,
    username: string,
    character: string,
    roomId: Id,
    currentScore: int,
    totalCorrectAnswers: int,
    position: Position,
    currentDoor: Option<DoorOption>,
    lastAnswerTime: Option<int>,
    isConnected: bool)

  datatype Options = Options(a: string, b: string, c: string, d: string)

  datatype Question = Question(
    questionId: Id,
    text: string,
    options: Options,
    correctAnswer: DoorOption,
    explanation: string,
    difficultyLevel: DifficultyLevel,
    theme: string)

  datatype GameState = GameState(
    gameId: Id,
    roomId: Id,
    currentRound: int,
    totalRounds: int,
    currentQuestionId: Option<Id>,
    currentQuestion: Option<Question>,
    phase: GamePhase,
    roundTimer: int,
    roundStartTime: Option<int>,
    playersAnswered: set<Id>,
    playerIds: seq<Id>,
    isGameOver: bool,
    createdAt: int)

  /** A room refers to its game by the game's id: the game record itself lives
      in the game registry and is shared, not copied. */
  datatype Room = Room(
    roomId: Id,
    playerIds: seq<Id>,
    maxPlayers: int,
    minPlayers: int,
    isGameStarted: bool,
    gameState: Option<Id>,
    createdAt: int)

  datatype ScoreUpdate = ScoreUpdate(
    playerId: Id,
    username: string,
    scoreGained: int,
    totalScore: int,
    isCorrect: bool)

  datatype LeaderboardEntry = LeaderboardEntry(
    playerId: Id,
    username: string,
    character: string,
    score: int,
    correctAnswers: int,
    rank: int)

  /** No identifier occurs twice. */
  ghost predicate NoDuplicates(ids: seq<Id>)
  {
    forall i, j :: 0 <= i < j < |ids| ==> ids[i] != ids[j]
  }

  /** A repeat-free sequence has as many distinct elements as it is long. */
  lemma {:induction false} DistinctCard(s: seq<Id>)
    requires NoDuplicates(s)
    ensures |set p | p in s| == |s|
  {
    if |s| > 0 {
      var tail := s[1..];
      assert NoDuplicates(tail);
      DistinctCard(tail);
      assert s[0] !in tail;
      assert (set p | p in s) == (set p | p in tail) + {s[0]};
    }
  }

  /** A subset at least as large as its superset is the whole superset. */
  lemma SubsetOfEqualCard(a: set<Id>, b: set<Id>)
    requires a <= b && |a| >= |b|
    ensures a == b
  {
    assert b == a + (b - a) && a !! (b - a);
    assert |b - a| == 0;
  }
}
