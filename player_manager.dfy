/** The player registry: players by id, an index from socket to player, and a
    pool of ten avatar names handed out without repeats until all are used. */
module PlayerRegistry {
  import opened Types
  import opened OrderedMaps

  const CHARACTERS: seq<string> :=
    ["Aladdin", "Sinbad", "Scheherazade", "Ali Baba", "Morgiana",
     "Genie", "Sultan", "Princess", "Merchant", "Sailor"]

  /** Usernames end in a random number below this. */
  const USERNAME_RANGE := 10000

  /** The avatar names as a set. */
  function CharacterSet(): set<string>
  {
    set c | c in CHARACTERS
  }

  lemma CharacterSetSize()
    ensures |CharacterSet()| == |CHARACTERS| == 10
  {
    assert NoDuplicates(CHARACTERS);
    DistinctCard(CHARACTERS);
  }

  // ----- Usernames -----

  function DigitChar(d: nat): (c: char)
    requires d < 10
    ensures '0' <= c <= '9'
  {
    (('0' as int) + d) as char
  }

  predicate IsDigits(s: string)
  {
    forall i :: 0 <= i < |s| ==> '0' <= s[i] <= '9'
  }

  /** The decimal numeral of `n`, as a template literal prints it. */
  function Decimal(n: nat): (s: string)
    ensures |s| > 0 && IsDigits(s)
    ensures n > 0 ==> s[0] != '0'
  {
    if n < 10 then [DigitChar(n)] else Decimal(n / 10) + [DigitChar(n % 10)]
  }

  /** The number a string of decimal digits denotes. */
  function ParseDecimal(s: string): nat
    requires IsDigits(s)
  {
    if |s| == 0 then 0
    else ParseDecimal(s[..|s| - 1]) * 10 + (s[|s| - 1] as int - '0' as int)
  }

  /** Reading a numeral back gives the number. */
  lemma {:induction false} DecimalRoundTrip(n: nat)
    ensures ParseDecimal(Decimal(n)) == n
  {
    if n >= 10 {
      var s := Decimal(n);
      assert s[..|s| - 1] == Decimal(n / 10);
      DecimalRoundTrip(n / 10);
    }
  }

  lemma {:induction false} DecimalLength(n: nat)
    ensures n < 10 ==> |Decimal(n)| == 1
    ensures n < 100 ==> |Decimal(n)| <= 2
    ensures n < 1000 ==> |Decimal(n)| <= 3
    ensures n < 10000 ==> |Decimal(n)| <= 4
  {
    if n >= 10 {
      DecimalLength(n / 10);
    }
  }

  /** `Player_` followed by the random number. */
  function GenerateUsername(suffix: nat): (username: string)
    requires suffix < USERNAME_RANGE
    ensures 8 <= |username| <= 11
    ensures username[..7] == "Player_"
    ensures IsDigits(username[7..]) && ParseDecimal(username[7..]) == suffix
  {
    DecimalLength(suffix);
    DecimalRoundTrip(suffix);
    var username := "Player_" + Decimal(suffix);
    assert username[7..] == Decimal(suffix);
    username
  }

  // ----- Avatar pool -----

  /** The names of `names` not in `used`, in order. */
  function Unused(names: seq<string>, used: set<string>): (r: seq<string>)
    ensures |r| <= |names|
    ensures forall c :: c in r <==> c in names && c !in used
  {
    if |names| == 0 then []
    else (if names[0] in used then [] else [names[0]]) + Unused(names[1..], used)
  }

  /** The pool after the reset: emptied once every name has been handed out. */
  function PoolAfterReset(used: set<string>): set<string>
  {
    if |used| >= |CHARACTERS| then {} else used
  }

  /** While the pool holds only avatar names, some name is still free after the reset. */
  lemma SomeCharacterFree(used: set<string>)
    requires used <= CharacterSet()
    ensures |Unused(CHARACTERS, PoolAfterReset(used))| > 0
  {
    CharacterSetSize();
    var pool := PoolAfterReset(used);
    var free := CharacterSet() - pool;
    assert CharacterSet() == pool + free && pool !! free;
    assert |free| > 0;
    var c :| c in free;
    assert c in Unused(CHARACTERS, pool);
  }

  // ----- Player records -----

  /** The fresh record `createPlayer` builds. */
  function NewPlayer(playerId: Id, socketId: Id, username: string, character: string, roomId: Id): (p: Player)
    ensures p.playerId == playerId && p.socketId == socketId && p.roomId == roomId
    ensures p.username == username && p.character == character
    ensures p.currentScore == 0 && p.totalCorrectAnswers == 0 && p.position == Position(0.0, 0.0)
    ensures p.currentDoor.None? && p.lastAnswerTime.None? && p.isConnected
  {
    Player(playerId, socketId, username, character, roomId, 0, 0, Position(0.0, 0.0), None, None, true)
  }

  /** The player after `updatePlayerScore`. */
  function Scored(p: Player, scoreToAdd: int, isCorrect: bool): (q: Player)
  {
    p.(currentScore := p.currentScore + scoreToAdd,
       totalCorrectAnswers := p.totalCorrectAnswers + (if isCorrect then 1 else 0))
  }

  /** No two players of the list share an id. */
  ghost predicate DistinctPlayers(ps: seq<Player>)
  {
    forall i, j :: 0 <= i < j < |ps| ==> ps[i].playerId != ps[j].playerId
  }

  /** The players of `ps` in the room, in order. */
  function InRoom(ps: seq<Player>, roomId: Id): (r: seq<Player>)
    ensures |r| <= |ps|
    ensures forall p :: p in r <==> p in ps && p.roomId == roomId
    ensures DistinctPlayers(ps) ==> DistinctPlayers(r)
  {
    if |ps| == 0 then []
    else
      var rest := InRoom(ps[1..], roomId);
      assert DistinctPlayers(ps) ==> forall p :: p in ps[1..] ==> p.playerId != ps[0].playerId;
      (if ps[0].roomId == roomId then [ps[0]] else []) + rest
  }

  /** The players of `ps` that are connected, in order. */
  function Connected(ps: seq<Player>): (r: seq<Player>)
    ensures |r| <= |ps|
    ensures forall p :: p in r <==> p in ps && p.isConnected
  {
    if |ps| == 0 then []
    else (if ps[0].isConnected then [ps[0]] else []) + Connected(ps[1..])
  }

  class PlayerManager {
    /** The players by id, in creation order. */
    var players: OrderedMap<Player>
    /** Which player each socket belongs to. */
    var socketToPlayer: map<Id, Id>
    /** The avatar names handed out since the pool was last reset. */
    var usedCharacters: set<string>

    ghost predicate Valid()
      reads this
    {
      && players.Valid()
      && (forall id :: id in players.entries ==> players.entries[id].playerId == id)
      && (forall s :: s in socketToPlayer ==>
            socketToPlayer[s] in players.entries && players.entries[socketToPlayer[s]].socketId == s)
      && usedCharacters <= CharacterSet()
    }

    constructor ()
      ensures Valid()
      ensures players == Empty() && socketToPlayer == map[] && usedCharacters == {}
    {
      players := Empty();
      socketToPlayer := map[];
      usedCharacters := {};
    }

    /** Picks a free avatar name (entry `pick` of the free ones, wrapped
        around), resetting the pool first when every name is taken. */
    method AssignCharacter(pick: nat) returns (character: string)
      requires Valid()
      modifies this
      ensures Valid()
      ensures character in CHARACTERS
      ensures character !in PoolAfterReset(old(usedCharacters))
      ensures usedCharacters == PoolAfterReset(old(usedCharacters)) + {character}
      ensures players == old(players) && socketToPlayer == old(socketToPlayer)
    {
      SomeCharacterFree(usedCharacters);
      var pool := PoolAfterReset(usedCharacters);
      var available := Unused(CHARACTERS, pool);
      character := available[pick % |available|];
      assert character in available;
      usedCharacters := pool + {character};
    }

    /** Registers a connected player with a zero score at the origin, under
        the fresh id, and indexes the socket. */
    method CreatePlayer(socketId: Id, roomId: Id, playerId: Id, suffix: nat, pick: nat) returns (player: Player)
      requires Valid()
      requires playerId !in players.entries
      requires suffix < USERNAME_RANGE
      modifies this
      ensures Valid()
      ensures player == NewPlayer(playerId, socketId, GenerateUsername(suffix), player.character, roomId)
      ensures player.character in CHARACTERS && player.character !in PoolAfterReset(old(usedCharacters))
      ensures usedCharacters == PoolAfterReset(old(usedCharacters)) + {player.character}
      ensures players == old(players).Put(playerId, player)
      ensures socketToPlayer == old(socketToPlayer)[socketId := playerId]
    {
      var username := GenerateUsername(suffix);
      var character := AssignCharacter(pick);
      player := NewPlayer(playerId, socketId, username, character, roomId);
      players := players.Put(playerId, player);
      socketToPlayer := socketToPlayer[socketId := playerId];
    }

    function GetPlayer(playerId: Id): (r: Option<Player>)
      reads this
      ensures r.Some? <==> playerId in players.entries
      ensures r.Some? ==> r.value == players.entries[playerId]
    {
      if playerId in players.entries then Some(players.entries[playerId]) else None
    }

    /** The player on the socket; none for an unknown socket (or an empty id). */
    function GetPlayerBySocket(socketId: Id): (r: Option<Player>)
      reads this
      requires Valid()
      ensures r.Some? <==> socketId in socketToPlayer && socketToPlayer[socketId] != ""
      ensures r.Some? ==> r.value == players.entries[socketToPlayer[socketId]] && r.value.socketId == socketId
    {
      if socketId in socketToPlayer && socketToPlayer[socketId] != "" then
        GetPlayer(socketToPlayer[socketId])
      else None
    }

    /** Moves the player and records the door under them; nothing else changes. */
    method UpdatePlayerPosition(playerId: Id, position: Position, door: Option<DoorOption>)
      requires Valid()
      modifies this
      ensures Valid()
      ensures players.keys == old(players.keys)
      ensures playerId !in old(players.entries) ==> players == old(players)
      ensures playerId in old(players.entries) ==>
                players.entries == old(players.entries)[playerId := old(players.entries[playerId]).(
                  position := position, currentDoor := door)]
      ensures socketToPlayer == old(socketToPlayer) && usedCharacters == old(usedCharacters)
    {
      if playerId !in players.entries { return; }
      var player := players.entries[playerId];
      players := players.Put(playerId, player.(position := position, currentDoor := door));
    }

    /** Adds to the score, and counts a correct answer when `isCorrect`. */
    method UpdatePlayerScore(playerId: Id, scoreToAdd: int, isCorrect: bool)
      requires Valid()
      modifies this
      ensures Valid()
      ensures players.keys == old(players.keys)
      ensures playerId !in old(players.entries) ==> players == old(players)
      ensures playerId in old(players.entries) ==>
                players.entries == old(players.entries)[playerId := Scored(old(players.entries[playerId]), scoreToAdd, isCorrect)]
      ensures socketToPlayer == old(socketToPlayer) && usedCharacters == old(usedCharacters)
    {
      if playerId !in players.entries { return; }
      var player := players.entries[playerId];
      players := players.Put(playerId, Scored(player, scoreToAdd, isCorrect));
    }

    /** Stamps the time of the player's answer. */
    method RecordAnswerTime(playerId: Id, timestamp: int)
      requires Valid()
      modifies this
      ensures Valid()
      ensures players.keys == old(players.keys)
      ensures playerId !in old(players.entries) ==> players == old(players)
      ensures playerId in old(players.entries) ==>
                players.entries == old(players.entries)[playerId := old(players.entries[playerId]).(
                  lastAnswerTime := Some(timestamp))]
      ensures socketToPlayer == old(socketToPlayer) && usedCharacters == old(usedCharacters)
    {
      if playerId !in players.entries { return; }
      var player := players.entries[playerId];
      players := players.Put(playerId, player.(lastAnswerTime := Some(timestamp)));
    }

    /** Marks the socket's player disconnected, keeping the record and the
        socket index, and returns it; none for an unknown socket. */
    method DisconnectPlayer(socketId: Id) returns (r: Option<Player>)
      requires Valid()
      modifies this
      ensures Valid()
      ensures r.Some? <==> old(GetPlayerBySocket(socketId)).Some?
      ensures players.keys == old(players.keys)
      ensures r.None? ==> players == old(players)
      ensures r.Some? ==>
                && r.value == old(GetPlayerBySocket(socketId)).value.(isConnected := false)
                && players.entries == old(players.entries)[r.value.playerId := r.value]
      ensures socketToPlayer == old(socketToPlayer) && usedCharacters == old(usedCharacters)
    {
      r := GetPlayerBySocket(socketId);
      if r.None? { return; }
      var player := r.value.(isConnected := false);
      players := players.Put(player.playerId, player);
      r := Some(player);
    }

    /** Forgets the player, its socket entry and its hold on its avatar name. */
    method RemovePlayer(playerId: Id)
      requires Valid()
      modifies this
      ensures Valid()
      ensures playerId !in old(players.entries) ==>
                players == old(players) && socketToPlayer == old(socketToPlayer) && usedCharacters == old(usedCharacters)
      ensures playerId in old(players.entries) ==>
                var p := old(players.entries[playerId]);
                && players == old(players).Remove(playerId)
                && socketToPlayer == old(socketToPlayer) - {p.socketId}
                && usedCharacters == old(usedCharacters) - {p.character}
    {
      if playerId !in players.entries { return; }
      var player := players.entries[playerId];
      socketToPlayer := socketToPlayer - {player.socketId};
      usedCharacters := usedCharacters - {player.character};
      players := players.Remove(playerId);
    }

    /** The players in the room, in creation order. */
    function GetPlayersInRoom(roomId: Id): (inRoom: seq<Player>)
      reads this
      requires Valid()
      ensures forall p :: p in inRoom <==>
                (exists id :: id in players.entries && players.entries[id] == p) && p.roomId == roomId
      ensures forall p :: p in inRoom ==> p.playerId in players.entries && players.entries[p.playerId] == p
      ensures DistinctPlayers(inRoom)
    {
      var all := players.Values();
      assert DistinctPlayers(all) by {
        forall i, j | 0 <= i < j < |all| ensures all[i].playerId != all[j].playerId {
          assert all[i].playerId == players.keys[i] && all[j].playerId == players.keys[j];
        }
      }
      assert forall p :: p in all <==> exists id :: id in players.entries && players.entries[id] == p by {
        forall p | (exists id :: id in players.entries && players.entries[id] == p) ensures p in all {
          var id :| id in players.entries && players.entries[id] == p;
          var i :| 0 <= i < |players.keys| && players.keys[i] == id;
          assert all[i] == p;
        }
      }
      InRoom(all, roomId)
    }

    /** The connected players in the room: those of `GetPlayersInRoom` still connected. */
    function GetConnectedPlayersInRoom(roomId: Id): (connected: seq<Player>)
      reads this
      requires Valid()
      ensures forall p :: p in connected <==> p in GetPlayersInRoom(roomId) && p.isConnected
      ensures |connected| <= |GetPlayersInRoom(roomId)|
    {
      Connected(GetPlayersInRoom(roomId))
    }

    /** Zero score and correct count, no answer time and no door, for a new game. */
    method ResetPlayerStats(playerId: Id)
      requires Valid()
      modifies this
      ensures Valid()
      ensures players.keys == old(players.keys)
      ensures playerId !in old(players.entries) ==> players == old(players)
      ensures playerId in old(players.entries) ==>
                players.entries == old(players.entries)[playerId := old(players.entries[playerId]).(
                  currentScore := 0, totalCorrectAnswers := 0, lastAnswerTime := None, currentDoor := None)]
      ensures socketToPlayer == old(socketToPlayer) && usedCharacters == old(usedCharacters)
    {
      if playerId !in players.entries { return; }
      var player := players.entries[playerId];
      players := players.Put(playerId, player.(currentScore := 0, totalCorrectAnswers := 0,
                                               lastAnswerTime := None, currentDoor := None));
    }

    /** How many players are registered. */
    function GetPlayerCount(): (n: nat)
      reads this
      requires Valid()
      ensures n == |players.entries|
    {
      DistinctCard(players.keys);
      assert players.entries.Keys == set k | k in players.keys;
      |players.keys|
    }
  }
}
