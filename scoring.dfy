/** The scoring engine: points for one answer (a base plus a linearly decaying
    speed bonus), per-player score updates for a round, and the leaderboard
    ordered by score, then by correct answers, ties kept in arrival order. */
module Scoring {
  import opened Types

  const BASE_SCORE := 100
  const SPEED_BONUS_MAX := 50
  /** The time over which the bonus decays; shorter than the 15 s question phase. */
  const ROUND_DURATION := 8000
  /** Answers within this many milliseconds get the whole bonus. */
  const INSTANT_WINDOW := 1000

  function Max(a: int, b: int): int { if a >= b then a else b }

  function Min(a: int, b: int): int { if a <= b then a else b }

  /** The answer times past the first second at which 50 * (8000 - t) / 8000
      is a whole number k, but the program's binary64 evaluation of
      50 * (1 - t / 8000) lands just below k, so `Math.floor` gives k - 1. */
  const FLOAT_SHORTFALL: set<int> := {2720, 4480, 5440, 6240, 6400, 7200, 7360}

  /** The exact floor of 50 * (8000 - t) / 8000, never negative. */
  function DecayBonus(timeTaken: int): int
  {
    Max(0, SPEED_BONUS_MAX * (ROUND_DURATION - timeTaken) / ROUND_DURATION)
  }

  /** The speed bonus for an answer given `timeTaken` ms after the round
      started: the whole bonus within the first second, then the floor of
      50 * (1 - timeTaken / 8000) as binary64 arithmetic computes it, never
      negative. That is the exact floor, except at the `FLOAT_SHORTFALL`
      times, where the exact quotient is whole and the program gets one less. */
  function SpeedBonus(timeTaken: int): (bonus: int)
    ensures 0 <= bonus <= SPEED_BONUS_MAX
    ensures timeTaken <= INSTANT_WINDOW ==> bonus == SPEED_BONUS_MAX
    ensures timeTaken >= ROUND_DURATION ==> bonus == 0
    ensures INSTANT_WINDOW < timeTaken < ROUND_DURATION && timeTaken !in FLOAT_SHORTFALL ==>
              bonus * ROUND_DURATION <= SPEED_BONUS_MAX * (ROUND_DURATION - timeTaken)
              < (bonus + 1) * ROUND_DURATION
    ensures timeTaken in FLOAT_SHORTFALL ==>
              (bonus + 1) * ROUND_DURATION == SPEED_BONUS_MAX * (ROUND_DURATION - timeTaken)
  {
    if timeTaken <= INSTANT_WINDOW then SPEED_BONUS_MAX
    else if timeTaken in FLOAT_SHORTFALL then DecayBonus(timeTaken) - 1
    else DecayBonus(timeTaken)
  }

  /** Points for one answer: nothing when wrong, otherwise the base plus the speed bonus. */
  function CalculateScore(isCorrect: bool, answerTime: int, roundStartTime: int): (points: int)
    ensures !isCorrect ==> points == 0
    ensures isCorrect ==> BASE_SCORE <= points <= BASE_SCORE + SPEED_BONUS_MAX
    ensures isCorrect && answerTime - roundStartTime <= INSTANT_WINDOW ==>
              points == BASE_SCORE + SPEED_BONUS_MAX
    ensures isCorrect && answerTime - roundStartTime >= ROUND_DURATION ==> points == BASE_SCORE
  {
    if !isCorrect then 0
    else BASE_SCORE + SpeedBonus(answerTime - roundStartTime)
  }

  /** Faster is never worse: the bonus does not increase with the time
      taken, the binary64 shortfalls included. */
  lemma SpeedBonusNonIncreasing(t1: int, t2: int)
    requires t1 <= t2
    ensures SpeedBonus(t2) <= SpeedBonus(t1)
  {
    if INSTANT_WINDOW < t1 && t2 < ROUND_DURATION && t1 < t2 {
      if t1 in FLOAT_SHORTFALL {
        DecayDropsAfterWhole(ROUND_DURATION - t2, ROUND_DURATION - t1);
      } else {
        DecayMonotone(ROUND_DURATION - t2, ROUND_DURATION - t1);
      }
    }
  }

  lemma DecayMonotone(a: int, b: int)
    requires a <= b
    ensures SPEED_BONUS_MAX * a / ROUND_DURATION <= SPEED_BONUS_MAX * b / ROUND_DURATION
  {
    var qa, qb := SPEED_BONUS_MAX * a / ROUND_DURATION, SPEED_BONUS_MAX * b / ROUND_DURATION;
    assert qa * ROUND_DURATION <= SPEED_BONUS_MAX * a;
    assert SPEED_BONUS_MAX * b < (qb + 1) * ROUND_DURATION;
  }

  /** Past a point where the decay is a whole number, it is strictly lower. */
  lemma DecayDropsAfterWhole(a: int, b: int)
    requires a < b && SPEED_BONUS_MAX * b % ROUND_DURATION == 0
    ensures SPEED_BONUS_MAX * a / ROUND_DURATION < SPEED_BONUS_MAX * b / ROUND_DURATION
  {
    var qa, qb := SPEED_BONUS_MAX * a / ROUND_DURATION, SPEED_BONUS_MAX * b / ROUND_DURATION;
    assert qa * ROUND_DURATION <= SPEED_BONUS_MAX * a;
    assert SPEED_BONUS_MAX * b == qb * ROUND_DURATION;
  }

  /** For a correct answer, answering later never scores more. */
  lemma ScoreNonIncreasingInAnswerTime(answer1: int, answer2: int, roundStartTime: int)
    requires answer1 <= answer2
    ensures CalculateScore(true, answer2, roundStartTime) <= CalculateScore(true, answer1, roundStartTime)
  {
    SpeedBonusNonIncreasing(answer1 - roundStartTime, answer2 - roundStartTime);
  }

  /** `t || now` on a nullable timestamp: a missing or zero time falls back to `now`. */
  function OrNow(t: Option<int>, now: int): int
  {
    if t.Some? && t.value != 0 then t.value else now
  }

  /** What a round's score update says about one player. */
  ghost predicate IsScoreUpdateFor(u: ScoreUpdate, p: Player, correctDoor: DoorOption,
                                   roundStartTime: int, now: int)
  {
    && u.playerId == p.playerId
    && u.username == p.username
    && (u.isCorrect <==> p.currentDoor == Some(correctDoor))
    && u.scoreGained == CalculateScore(u.isCorrect, OrNow(p.lastAnswerTime, now), roundStartTime)
    && u.totalScore == p.currentScore + u.scoreGained
  }

  /** One update per player, in the players' order; a player without a recorded
      answer time is scored as if answering `now`. */
  method GenerateScoreUpdates(players: seq<Player>, correctDoor: DoorOption, roundStartTime: int, now: int)
    returns (updates: seq<ScoreUpdate>)
    ensures |updates| == |players|
    ensures forall i :: 0 <= i < |players| ==>
              IsScoreUpdateFor(updates[i], players[i], correctDoor, roundStartTime, now)
    ensures forall i :: 0 <= i < |players| ==>
              && 0 <= updates[i].scoreGained <= BASE_SCORE + SPEED_BONUS_MAX
              && (!updates[i].isCorrect ==> updates[i].scoreGained == 0)
              && updates[i].totalScore >= players[i].currentScore
  {
    updates := [];
    for i := 0 to |players|
      invariant |updates| == i
      invariant forall k :: 0 <= k < i ==>
                  IsScoreUpdateFor(updates[k], players[k], correctDoor, roundStartTime, now)
    {
      var player := players[i];
      var isCorrect := player.currentDoor == Some(correctDoor);
      var answerTime := OrNow(player.lastAnswerTime, now);
      var scoreGained := CalculateScore(isCorrect, answerTime, roundStartTime);
      updates := updates + [ScoreUpdate(player.playerId, player.username, scoreGained,
                                        player.currentScore + scoreGained, isCorrect)];
    }
  }

  // ----- Leaderboard -----

  /** A player's leaderboard entry before ranks are assigned. */
  function ToEntry(p: Player): LeaderboardEntry
  {
    LeaderboardEntry(p.playerId, p.username, p.character, p.currentScore, p.totalCorrectAnswers, 0)
  }

  function Entries(players: seq<Player>): (r: seq<LeaderboardEntry>)
    ensures |r| == |players|
    ensures forall i :: 0 <= i < |players| ==> r[i] == ToEntry(players[i])
  {
    if |players| == 0 then [] else [ToEntry(players[0])] + Entries(players[1..])
  }

  /** `a` comes strictly before `b`: a higher score, or the same score and more correct answers. */
  predicate Outranks(a: LeaderboardEntry, b: LeaderboardEntry)
  {
    a.score > b.score || (a.score == b.score && a.correctAnswers > b.correctAnswers)
  }

  predicate HasKey(e: LeaderboardEntry, score: int, correct: int)
  {
    e.score == score && e.correctAnswers == correct
  }

  /** No entry is outranked by one that comes after it. */
  ghost predicate Sorted(s: seq<LeaderboardEntry>)
  {
    forall i, j :: 0 <= i < j < |s| ==> !Outranks(s[j], s[i])
  }

  /** The entries with the given score and correct-answer count, in their order in `s`. */
  function KeyFilter(s: seq<LeaderboardEntry>, score: int, correct: int): (r: seq<LeaderboardEntry>)
    ensures forall e :: e in r ==> e in s && HasKey(e, score, correct)
  {
    if |s| == 0 then []
    else (if HasKey(s[0], score, correct) then [s[0]] else []) + KeyFilter(s[1..], score, correct)
  }

  /** Places `x` before the first entry that does not outrank it. */
  function Insert(x: LeaderboardEntry, s: seq<LeaderboardEntry>): (r: seq<LeaderboardEntry>)
    ensures |r| == |s| + 1
    ensures multiset(r) == multiset(s) + multiset{x}
  {
    if |s| == 0 || !Outranks(s[0], x) then [x] + s
    else
      assert s == [s[0]] + s[1..];
      [s[0]] + Insert(x, s[1..])
  }

  /** Inserting adds `x` and nothing else. */
  lemma {:induction false} InsertMembers(x: LeaderboardEntry, s: seq<LeaderboardEntry>)
    ensures forall e :: e in Insert(x, s) ==> e == x || e in s
  {
    if |s| > 0 && Outranks(s[0], x) {
      InsertMembers(x, s[1..]);
      assert Insert(x, s) == [s[0]] + Insert(x, s[1..]);
    }
  }

  lemma {:induction false} InsertSorted(x: LeaderboardEntry, s: seq<LeaderboardEntry>)
    requires Sorted(s)
    ensures Sorted(Insert(x, s))
  {
    if |s| == 0 || !Outranks(s[0], x) {
      var r := [x] + s;
      assert Insert(x, s) == r;
      forall i, j | 0 <= i < j < |r| ensures !Outranks(r[j], r[i]) {
        assert r[j] == s[j - 1];
        if i == 0 {
          assert j - 1 == 0 || !Outranks(s[j - 1], s[0]);
        } else {
          assert r[i] == s[i - 1];
        }
      }
    } else {
      var rest := Insert(x, s[1..]);
      assert Sorted(s[1..]);
      InsertSorted(x, s[1..]);
      InsertMembers(x, s[1..]);
      var r := [s[0]] + rest;
      assert Insert(x, s) == r;
      forall i, j | 0 <= i < j < |r| ensures !Outranks(r[j], r[i]) {
        assert r[j] == rest[j - 1];
        if i == 0 {
          var e := rest[j - 1];
          assert e in rest;
          if e != x {
            var k :| 0 <= k < |s[1..]| && s[1..][k] == e;
            assert s[k + 1] == e;
          }
        } else {
          assert r[i] == rest[i - 1];
        }
      }
    }
  }

  /** A stable insertion sort by `Outranks`: the reference ordering of a leaderboard. */
  function SortEntries(s: seq<LeaderboardEntry>): (r: seq<LeaderboardEntry>)
    ensures |r| == |s|
    ensures Sorted(r)
    ensures multiset(r) == multiset(s)
  {
    if |s| == 0 then []
    else
      var rest := SortEntries(s[1..]);
      InsertSorted(s[0], rest);
      assert s == [s[0]] + s[1..];
      Insert(s[0], rest)
  }

  lemma {:induction false} InsertKeyFilter(x: LeaderboardEntry, s: seq<LeaderboardEntry>, score: int, correct: int)
    ensures KeyFilter(Insert(x, s), score, correct)
            == (if HasKey(x, score, correct) then [x] else []) + KeyFilter(s, score, correct)
  {
    if |s| == 0 || !Outranks(s[0], x) {
      var r := [x] + s;
      assert Insert(x, s) == r;
      assert r[0] == x && r[1..] == s;
    } else {
      var rest := Insert(x, s[1..]);
      var r := [s[0]] + rest;
      assert Insert(x, s) == r;
      assert r[0] == s[0] && r[1..] == rest;
      var tail := KeyFilter(s[1..], score, correct);
      var hx: seq<LeaderboardEntry> := if HasKey(x, score, correct) then [x] else [];
      var h0: seq<LeaderboardEntry> := if HasKey(s[0], score, correct) then [s[0]] else [];
      InsertKeyFilter(x, s[1..], score, correct);
      assert KeyFilter(rest, score, correct) == hx + tail;
      assert KeyFilter(r, score, correct) == h0 + (hx + tail);
      assert KeyFilter(s, score, correct) == h0 + tail;
      // entries with the same key never outrank each other, so one of hx, h0 is empty
      if HasKey(x, score, correct) {
        assert h0 == [];
        assert h0 + (hx + tail) == hx + tail;
        assert hx + (h0 + tail) == hx + tail;
      } else {
        assert hx + tail == tail;
        assert hx + (h0 + tail) == h0 + tail;
      }
    }
  }

  /** Sorting keeps the relative order of entries with equal keys (stability). */
  lemma {:induction false} SortEntriesStable(s: seq<LeaderboardEntry>, score: int, correct: int)
    ensures KeyFilter(SortEntries(s), score, correct) == KeyFilter(s, score, correct)
  {
    if s != [] {
      SortEntriesStable(s[1..], score, correct);
      InsertKeyFilter(s[0], SortEntries(s[1..]), score, correct);
    }
  }

  /** An already ordered list is left as it is. */
  lemma {:induction false} SortEntriesOfSorted(s: seq<LeaderboardEntry>)
    requires Sorted(s)
    ensures SortEntries(s) == s
  {
    if s != [] {
      assert Sorted(s[1..]);
      SortEntriesOfSorted(s[1..]);
      assert s == [s[0]] + s[1..];
    }
  }

  /** The entries with their ranks cleared. */
  function Unranked(board: seq<LeaderboardEntry>): (r: seq<LeaderboardEntry>)
    ensures |r| == |board|
    ensures forall i :: 0 <= i < |board| ==> r[i] == board[i].(rank := 0)
  {
    if |board| == 0 then [] else [board[0].(rank := 0)] + Unranked(board[1..])
  }

  /** What the source promises of a leaderboard of `players`: one entry per
      player (a permutation), ordered by score then correct answers, entries
      with equal keys in the players' order, and rank = position + 1. */
  ghost predicate IsLeaderboardOf(board: seq<LeaderboardEntry>, players: seq<Player>)
  {
    && |board| == |players|
    && (forall i :: 0 <= i < |board| ==> board[i].rank == i + 1)
    && Sorted(board)
    && multiset(Unranked(board)) == multiset(Entries(players))
    && (forall score, correct ::
          KeyFilter(Unranked(board), score, correct) == KeyFilter(Entries(players), score, correct))
  }

  /** Builds the entries, sorts them stably, then numbers them from 1. */
  method GenerateLeaderboard(players: seq<Player>) returns (board: seq<LeaderboardEntry>)
    ensures IsLeaderboardOf(board, players)
  {
    var sorted := SortEntries(Entries(players));
    board := sorted;
    var i := 0;
    while i < |board|
      invariant 0 <= i <= |board| == |sorted|
      invariant forall k :: 0 <= k < |board| ==> board[k].(rank := 0) == sorted[k].(rank := 0)
      invariant forall k :: 0 <= k < i ==> board[k].rank == k + 1
    {
      board := board[i := board[i].(rank := i + 1)];
      i := i + 1;
    }
    RankedSortIsLeaderboard(players, board);
  }

  /** Numbering the stably sorted entries from 1 yields a leaderboard. */
  lemma {:induction false} RankedSortIsLeaderboard(players: seq<Player>, board: seq<LeaderboardEntry>)
    requires |board| == |players|
    requires forall k :: 0 <= k < |board| ==>
               board[k].(rank := 0) == SortEntries(Entries(players))[k].(rank := 0)
    requires forall k :: 0 <= k < |board| ==> board[k].rank == k + 1
    ensures IsLeaderboardOf(board, players)
  {
    var entries := Entries(players);
    var sorted := SortEntries(entries);
    forall k | 0 <= k < |sorted| ensures sorted[k].rank == 0 {
      assert sorted[k] in multiset(entries);
    }
    assert Unranked(board) == sorted;
    forall i, j | 0 <= i < j < |board| ensures !Outranks(board[j], board[i]) {
      assert !Outranks(sorted[j], sorted[i]);
    }
    forall score, correct
      ensures KeyFilter(Unranked(board), score, correct) == KeyFilter(entries, score, correct)
    {
      SortEntriesStable(entries, score, correct);
    }
  }

  /** If `a`'s first key occurs in `b` in the same way, `a`'s head does not
      outrank the head of the sorted `b`. */
  lemma HeadNotAbove(a: seq<LeaderboardEntry>, b: seq<LeaderboardEntry>)
    requires a != [] && b != [] && Sorted(b)
    requires KeyFilter(a, a[0].score, a[0].correctAnswers) == KeyFilter(b, a[0].score, a[0].correctAnswers)
    ensures !Outranks(a[0], b[0])
  {
    var fa := KeyFilter(a, a[0].score, a[0].correctAnswers);
    assert fa[0] == a[0];
    assert a[0] in b;
    var j :| 0 <= j < |b| && b[j] == a[0];
    assert j == 0 || !Outranks(b[j], b[0]);
  }

  /** The first entry of a list is the first entry of its own key's filter. */
  lemma HeadInOwnKeyFilter(s: seq<LeaderboardEntry>)
    requires |s| > 0
    ensures KeyFilter(s, s[0].score, s[0].correctAnswers) == [s[0]] + KeyFilter(s[1..], s[0].score, s[0].correctAnswers)
  {
  }

  /** Two sorted lists with the same entries per key, in the same order, are equal. */
  lemma {:induction false} SortedByKeyFiltersUnique(a: seq<LeaderboardEntry>, b: seq<LeaderboardEntry>)
    requires Sorted(a) && Sorted(b)
    requires forall score, correct :: KeyFilter(a, score, correct) == KeyFilter(b, score, correct)
    ensures a == b
    decreases |a|
  {
    if |a| == 0 {
      if |b| != 0 {
        HeadInOwnKeyFilter(b);
        assert false;
      }
    } else if |b| == 0 {
      HeadInOwnKeyFilter(a);
      assert false;
    } else {
      var x, y := a[0], b[0];
      HeadNotAbove(a, b);
      HeadNotAbove(b, a);
      assert KeyFilter(a, x.score, x.correctAnswers)[0] == x;
      assert KeyFilter(b, x.score, x.correctAnswers)[0] == y;
      forall score, correct
        ensures KeyFilter(a[1..], score, correct) == KeyFilter(b[1..], score, correct)
      {
        var h := if HasKey(x, score, correct) then [x] else [];
        assert KeyFilter(a, score, correct) == h + KeyFilter(a[1..], score, correct);
        assert KeyFilter(b, score, correct) == h + KeyFilter(b[1..], score, correct);
        assert KeyFilter(a[1..], score, correct) == KeyFilter(a, score, correct)[|h|..];
        assert KeyFilter(b[1..], score, correct) == KeyFilter(b, score, correct)[|h|..];
      }
      assert Sorted(a[1..]) && Sorted(b[1..]);
      SortedByKeyFiltersUnique(a[1..], b[1..]);
      assert a == [x] + a[1..] && b == [y] + b[1..];
    }
  }

  /** A leaderboard is determined by the players: generating it twice from the
      same list gives the same result. */
  lemma LeaderboardDeterministic(players: seq<Player>, b1: seq<LeaderboardEntry>, b2: seq<LeaderboardEntry>)
    requires IsLeaderboardOf(b1, players) && IsLeaderboardOf(b2, players)
    ensures b1 == b2
  {
    var u1, u2 := Unranked(b1), Unranked(b2);
    assert Sorted(u1) && Sorted(u2);
    SortedByKeyFiltersUnique(u1, u2);
    forall i | 0 <= i < |b1| ensures b1[i] == b2[i] {
      assert b1[i] == u1[i].(rank := i + 1);
      assert b2[i] == u2[i].(rank := i + 1);
    }
  }

  /** `leaderboard[0]`, or null for an empty leaderboard. */
  function GetWinner(board: seq<LeaderboardEntry>): (winner: Option<LeaderboardEntry>)
    ensures winner.Some? <==> |board| > 0
  {
    if |board| > 0 then Some(board[0]) else None
  }

  /** The winner of a non-empty leaderboard is ranked 1 and no player outranks it. */
  lemma WinnerTopsLeaderboard(players: seq<Player>, board: seq<LeaderboardEntry>)
    requires IsLeaderboardOf(board, players)
    requires |players| > 0
    ensures GetWinner(board).Some?
    ensures GetWinner(board).value.rank == 1
    ensures forall p :: p in players ==> !Outranks(ToEntry(p), GetWinner(board).value)
  {
    forall p | p in players ensures !Outranks(ToEntry(p), board[0]) {
      HeadTopsEntry(players, board, p);
    }
  }

  /** The head of a sorted permutation of the players' entries is outranked by none of them. */
  lemma {:induction false} HeadTopsEntry(players: seq<Player>, board: seq<LeaderboardEntry>, p: Player)
    requires Sorted(board) && |board| > 0
    requires multiset(Unranked(board)) == multiset(Entries(players))
    requires p in players
    ensures !Outranks(ToEntry(p), board[0])
  {
    var k :| 0 <= k < |players| && players[k] == p;
    var e := ToEntry(p);
    var entries := Entries(players);
    var unranked := Unranked(board);
    assert e == entries[k];
    SharedMember(entries, unranked, e);
    var j :| 0 <= j < |unranked| && unranked[j] == e;
    assert e == board[j].(rank := 0);
    if j > 0 {
      assert !Outranks(board[j], board[0]);
    }
  }

  /** Sequences with the same elements, counted, have the same members. */
  lemma SharedMember(a: seq<LeaderboardEntry>, b: seq<LeaderboardEntry>, e: LeaderboardEntry)
    requires multiset(a) == multiset(b) && e in a
    ensures e in b
  {
    assert e in multiset(a);
  }


  /** `leaderboard.slice(0, count)`: a negative count counts back from the end. */
  function GetTopPlayers(board: seq<LeaderboardEntry>, count: int): (top: seq<LeaderboardEntry>)
    ensures |top| <= |board| && top == board[..|top|]
    ensures count >= 0 ==> |top| == Min(count, |board|)
    ensures count < 0 ==> |top| == Max(0, |board| + count)
  {
    var end := if count < 0 then Max(0, |board| + count) else Min(count, |board|);
    board[..end]
  }

  /** In a leaderboard, nobody left out of the top list outranks anybody in it,
      and the top list holds ranks 1 to its length. */
  lemma TopPlayersOutrankRest(players: seq<Player>, board: seq<LeaderboardEntry>, count: int)
    requires IsLeaderboardOf(board, players)
    ensures var top := GetTopPlayers(board, count);
            && (forall i :: 0 <= i < |top| ==> top[i].rank == i + 1)
            && (forall x, y :: x in top && y in board[|top|..] ==> !Outranks(y, x))
  {
    var top := GetTopPlayers(board, count);
    SortedPrefixTopsRest(board, |top|);
  }

  /** In a sorted board nothing after position `n` outranks anything before it. */
  lemma {:induction false} SortedPrefixTopsRest(board: seq<LeaderboardEntry>, n: nat)
    requires Sorted(board) && n <= |board|
    ensures forall x, y :: x in board[..n] && y in board[n..] ==> !Outranks(y, x)
  {
    forall x, y | x in board[..n] && y in board[n..] ensures !Outranks(y, x) {
      var i :| 0 <= i < n && board[..n][i] == x;
      var j :| 0 <= j < |board| - n && board[n..][j] == y;
      assert board[i] == x && board[n + j] == y;
    }
  }

}
