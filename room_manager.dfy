/**
 * backend/roomManager.js: the in-memory registry of rooms (a JavaScript
 * `Map` from room id to room object) and the operations on it. The registry
 * is a class whose map the operations reassign; a room is a value in that
 * map, and updating a room's field in place is rewriting its entry. A
 * room's players form an insertion-ordered map, modelled as a sequence
 * with distinct ids.
 */
module RoomManager {
  import opened Wrappers
  import opened Js
  import opened GameLogic

  type SocketId = string
  type RoomId = string

  const MaxPlayers: nat := 16
  const DefaultDigitLength: int := 4
  const UnknownName: string := "Unknown"
  const MaxMessages: nat := 100

  datatype Status = Waiting | Countdown | Playing | Finished

  datatype Player = Player(id: SocketId, username: string, joinedAt: int)
  datatype GuessEntry = GuessEntry(guess: string, bulls: nat, cows: nat)
  datatype Winner = Winner(id: SocketId, username: string, attempts: nat, time: int)
  datatype Message = Message(username: string, text: string, timestamp: int)

  /** What clients see of a player (`getSerializablePlayers`). */
  datatype PlayerView = PlayerView(id: SocketId, username: string, isHost: bool, guessCount: nat, bestBulls: nat)

  /** What clients see of a room (`getSerializableRoom`): never the secret. */
  datatype RoomView = RoomView(
    id: RoomId, hostId: SocketId, players: seq<PlayerView>, digitLength: int,
    status: Status, startTime: Option<int>, winner: Option<Winner>)

  /** An entry of the lobby listing (`getAllPublicRooms`). */
  datatype PublicRoom = PublicRoom(id: RoomId, playerCount: nat, maxPlayers: nat, digitLength: int, hostName: string)

  /** A room object: its id and creation time, then the fields the server updates. */
  datatype Room = Room(
    id: RoomId, createdAt: int, hostId: SocketId, players: seq<Player>, digitLength: int, secret: Option<string>,
    status: Status, startTime: Option<int>, winner: Option<Winner>,
    guesses: map<SocketId, seq<string>>, guessResults: map<SocketId, seq<GuessEntry>>,
    lastGuessTime: map<SocketId, int>, messages: seq<Message>)

  // ---------------------------------------------------------------- players as an ordered map

  /** The keys of `players`, in insertion order. */
  function Ids(ps: seq<Player>): (ids: seq<SocketId>)
    ensures |ids| == |ps|
    ensures forall i | 0 <= i < |ps| :: ids[i] == ps[i].id
  {
    seq(|ps|, i requires 0 <= i < |ps| => ps[i].id)
  }

  /** The keys of two lists of players, one after the other, are the keys of the joined list. */
  lemma IdsConcat(a: seq<Player>, b: seq<Player>)
    ensures Ids(a + b) == Ids(a) + Ids(b)
  {
    var l, r := Ids(a + b), Ids(a) + Ids(b);
    forall i | 0 <= i < |l| ensures l[i] == r[i] {
      if i < |a| { assert (a + b)[i] == a[i]; } else { assert (a + b)[i] == b[i - |a|]; }
    }
  }

  /** The keys of a list with one more player in front. */
  lemma IdsCons(p: Player, b: seq<Player>)
    ensures Ids([p] + b) == [p.id] + Ids(b)
  {
    IdsConcat([p], b);
    assert Ids([p]) == [p.id];
  }

  /** The keys of a non-empty list: the first key, then the keys of the rest. */
  lemma IdsFirst(ps: seq<Player>)
    requires ps != []
    ensures Ids(ps) == [ps[0].id] + Ids(ps[1..])
  {
    assert ps == [ps[0]] + ps[1..];
    IdsCons(ps[0], ps[1..]);
  }

  /** `players.get(id)`. */
  function FindPlayer(ps: seq<Player>, id: SocketId): (r: Option<Player>)
    ensures r.None? <==> id !in Ids(ps)
    ensures r.Some? ==> r.value in ps && r.value.id == id
  {
    if ps == [] then None
    else if ps[0].id == id then Some(ps[0])
    else
      var r := FindPlayer(ps[1..], id);
      IdsFirst(ps);
      r
  }

  /** `players.set(p.id, p)`: an existing key keeps its place, a new key goes last. */
  function SetPlayer(ps: seq<Player>, p: Player): (r: seq<Player>)
    ensures p in r
    ensures forall q | q in r :: q == p || q in ps
  {
    if ps == [] then [p]
    else if ps[0].id == p.id then [p] + ps[1..]
    else [ps[0]] + SetPlayer(ps[1..], p)
  }

  /** A new key is appended; setting an existing key leaves the key order as it was. */
  lemma {:induction false} SetPlayerIds(ps: seq<Player>, p: Player)
    ensures p.id !in Ids(ps) ==> SetPlayer(ps, p) == ps + [p]
    ensures p.id in Ids(ps) ==> Ids(SetPlayer(ps, p)) == Ids(ps)
  {
    if ps != [] {
      IdsFirst(ps);
      if ps[0].id != p.id {
        SetPlayerIds(ps[1..], p);
        var rest := SetPlayer(ps[1..], p);
        IdsCons(ps[0], rest);
        if p.id !in Ids(ps) {
          assert [ps[0]] + (ps[1..] + [p]) == ps + [p];
        }
      } else {
        IdsCons(p, ps[1..]);
      }
    }
  }

  /** `list` without `x`: what deleting a key does to the key order of a `Map`. */
  function Without(list: seq<string>, x: string): (r: seq<string>)
    ensures forall y :: y in r <==> y in list && y != x
    ensures x !in list ==> r == list
    ensures |r| <= |list|
    ensures Distinct(list) ==> Distinct(r) && (x in list ==> |r| == |list| - 1)
  {
    if list == [] then []
    else
      var rest := Without(list[1..], x);
      assert Distinct(list) ==> list[0] !in list[1..];
      assert Distinct(list) ==> Distinct(list[1..]) by {
        if Distinct(list) {
          forall i, j | 0 <= i < j < |list[1..]| ensures list[1..][i] != list[1..][j] {
            assert list[1..][i] == list[i + 1] && list[1..][j] == list[j + 1];
          }
        }
      }
      if list[0] == x then rest
      else
        var r := [list[0]] + rest;
        assert Distinct(list) ==> Distinct(r) by {
          if Distinct(list) {
            forall i, j | 0 <= i < j < |r| ensures r[i] != r[j] {
              if i == 0 { assert r[j] in rest; } else { assert r[i] == rest[i - 1] && r[j] == rest[j - 1]; }
            }
          }
        }
        r
  }

  /** On a list without repetition, deleting a key takes out exactly its entry and keeps the others in order. */
  lemma {:induction false} WithoutRemovesAt(list: seq<string>, x: string, k: nat)
    requires Distinct(list) && k < |list| && list[k] == x
    ensures Without(list, x) == RemoveAt(list, k)
  {
    var rest := list[1..];
    assert Distinct(rest) by {
      forall i, j | 0 <= i < j < |rest| ensures rest[i] != rest[j] {
        assert rest[i] == list[i + 1] && rest[j] == list[j + 1];
      }
    }
    if k == 0 {
      assert x !in rest by {
        forall j | 0 <= j < |rest| ensures rest[j] != x { assert rest[j] == list[j + 1]; }
      }
      assert RemoveAt(list, 0) == rest;
    } else {
      assert list[0] != x;
      WithoutRemovesAt(rest, x, k - 1);
      assert [list[0]] + RemoveAt(rest, k - 1) == RemoveAt(list, k);
    }
  }

  /** `players.delete(id)`: every other player stays, in the same order. */
  function DeletePlayer(ps: seq<Player>, id: SocketId): (r: seq<Player>)
    ensures forall q :: q in r <==> q in ps && q.id != id
    ensures |r| <= |ps|
  {
    if ps == [] then []
    else if ps[0].id == id then DeletePlayer(ps[1..], id)
    else [ps[0]] + DeletePlayer(ps[1..], id)
  }

  /** Deleting a player deletes its key from the key order, and only that key. */
  lemma {:induction false} DeletePlayerIds(ps: seq<Player>, id: SocketId)
    ensures Ids(DeletePlayer(ps, id)) == Without(Ids(ps), id)
  {
    if ps != [] {
      DeletePlayerIds(ps[1..], id);
      var ids := Ids(ps);
      var rest := DeletePlayer(ps[1..], id);
      assert ids[0] == ps[0].id && ids[1..] == Ids(ps[1..]);
      if ps[0].id == id {
        assert DeletePlayer(ps, id) == rest;
        assert Without(ids, id) == Without(ids[1..], id);
      } else {
        assert DeletePlayer(ps, id) == [ps[0]] + rest;
        assert Without(ids, id) == [ids[0]] + Without(ids[1..], id);
        IdsCons(ps[0], rest);
      }
    }
  }

  /** After a deletion, the first player left is the first one, or the second when the first was deleted. */
  lemma {:induction false} FirstRemaining(ps: seq<Player>, id: SocketId)
    requires Distinct(Ids(ps)) && |ps| >= 1
    requires DeletePlayer(ps, id) != []
    ensures ps[0].id != id ==> DeletePlayer(ps, id)[0] == ps[0]
    ensures ps[0].id == id ==> |ps| >= 2 && DeletePlayer(ps, id)[0] == ps[1]
  {
    if ps[0].id == id {
      assert |ps| >= 2;
      assert ps[1].id != id by { assert Ids(ps)[1] != Ids(ps)[0]; }
      assert ps[1..][0] == ps[1];
    }
  }

  /** Whether a name clashes, ignoring case, with a player's (the loop in `joinRoom`). */
  predicate NameTaken(ps: seq<Player>, username: string) {
    exists i | 0 <= i < |ps| :: ToLower(ps[i].username) == ToLower(username)
  }

  // ---------------------------------------------------------------- views

  /** `guessResults.get(id)?.reduce((max, r) => Math.max(max, r.bulls), 0) || 0`. */
  function MaxBulls(results: seq<GuessEntry>): (m: nat)
    ensures forall e | e in results :: e.bulls <= m
    ensures m == 0 || exists e | e in results :: e.bulls == m
  {
    if results == [] then 0
    else
      var init := MaxBulls(results[..|results| - 1]);
      var last := results[|results| - 1];
      assert results == results[..|results| - 1] + [last];
      if last.bulls > init then last.bulls else init
  }

  function ResultsOf(results: map<SocketId, seq<GuessEntry>>, id: SocketId): seq<GuessEntry> {
    if id in results then results[id] else []
  }

  function ViewOf(p: Player, hostId: SocketId, results: map<SocketId, seq<GuessEntry>>): PlayerView {
    PlayerView(p.id, p.username, p.id == hostId, |ResultsOf(results, p.id)|, MaxBulls(ResultsOf(results, p.id)))
  }

  /** The player list clients receive, one entry per player in membership order. */
  function PlayerViews(ps: seq<Player>, hostId: SocketId, results: map<SocketId, seq<GuessEntry>>): (vs: seq<PlayerView>)
    ensures |vs| == |ps|
    ensures forall i | 0 <= i < |ps| :: vs[i] == ViewOf(ps[i], hostId, results)
  {
    seq(|ps|, i requires 0 <= i < |ps| => ViewOf(ps[i], hostId, results))
  }

  /** When the host is a player and ids are unique, exactly one entry of the list is marked host. */
  lemma OneHostView(ps: seq<Player>, hostId: SocketId, results: map<SocketId, seq<GuessEntry>>)
    requires Distinct(Ids(ps)) && hostId in Ids(ps)
    ensures exists i | 0 <= i < |ps| :: PlayerViews(ps, hostId, results)[i].isHost
    ensures forall i, j | 0 <= i < |ps| && 0 <= j < |ps| ::
      PlayerViews(ps, hostId, results)[i].isHost && PlayerViews(ps, hostId, results)[j].isHost ==> i == j
  {
    var vs := PlayerViews(ps, hostId, results);
    var k :| 0 <= k < |ps| && Ids(ps)[k] == hostId;
    assert vs[k].isHost;
    forall i, j | 0 <= i < |ps| && 0 <= j < |ps| && vs[i].isHost && vs[j].isHost ensures i == j {
      assert Ids(ps)[i] == Ids(ps)[j];
    }
  }

  /**
   * `players.get(id)?.username || 'Unknown'`: the player's name, or
   * "Unknown" when there is no such player or the name is empty.
   */
  function NameOrUnknown(ps: seq<Player>, id: SocketId): (name: string)
    ensures name != ""
    ensures name == UnknownName || exists q | q in ps :: q.id == id && q.username == name
    ensures forall q | q in ps && q.id == id && q.username != "" && Distinct(Ids(ps)) :: name == q.username
  {
    match FindPlayer(ps, id)
    case Some(p) =>
      assert forall q | q in ps && q.id == id && Distinct(Ids(ps)) :: q == p by {
        forall q | q in ps && q.id == id && Distinct(Ids(ps)) ensures q == p {
          var i :| 0 <= i < |ps| && ps[i] == q;
          var j :| 0 <= j < |ps| && ps[j] == p;
          assert Ids(ps)[i] == Ids(ps)[j];
        }
      }
      if p.username != "" then p.username else UnknownName
    case None =>
      assert forall q | q in ps :: q.id != id by {
        forall q | q in ps ensures q.id != id {
          var i :| 0 <= i < |ps| && ps[i] == q;
          assert Ids(ps)[i] == q.id;
        }
      }
      UnknownName
  }

  /**
   * What `removePlayer` does to a room's state: the player and everything
   * kept under its socket id go, and when the host left and someone
   * remains, the first remaining player becomes host.
   */
  function AfterLeave(st: Room, sid: SocketId): (t: Room)
    ensures t.players == DeletePlayer(st.players, sid)
    ensures forall q :: q in t.players <==> q in st.players && q.id != sid
    ensures t.guesses == st.guesses - {sid} && t.guessResults == st.guessResults - {sid}
    ensures t.lastGuessTime == st.lastGuessTime - {sid}
    ensures t.(hostId := st.hostId, players := st.players, guesses := st.guesses,
               guessResults := st.guessResults, lastGuessTime := st.lastGuessTime) == st
    ensures sid != st.hostId ==> t.hostId == st.hostId
    ensures sid == st.hostId && t.players != [] ==> t.hostId == t.players[0].id
  {
    var left := DeletePlayer(st.players, sid);
    st.(hostId := if sid == st.hostId && left != [] then left[0].id else st.hostId,
        players := left, guesses := st.guesses - {sid}, guessResults := st.guessResults - {sid},
        lastGuessTime := st.lastGuessTime - {sid})
  }

  /**
   * A departure keeps the room invariant; while anyone remains, the host
   * is one of the remaining players; the socket is no longer a player.
   */
  lemma LeaveKeepsHost(st: Room, sid: SocketId)
    requires Occupied(st)
    ensures RoomOk(AfterLeave(st, sid))
    ensures AfterLeave(st, sid).players != [] ==> Occupied(AfterLeave(st, sid))
    ensures sid !in Ids(AfterLeave(st, sid).players)
  {
    var t := AfterLeave(st, sid);
    DeleteKeepsIds(st.players, sid);
    if t.players != [] && sid == st.hostId {
      assert Ids(t.players)[0] == t.hostId;
    }
  }

  /**
   * The phase facts: a waiting room has no secret, start time or winner; a
   * room counting down has a secret and no winner; a playing room has a
   * start time (but possibly no secret, see CountdownElapsed); a finished
   * room has a secret, a start time and a winner.
   */
  predicate PhaseOk(st: Room) {
    && (st.status == Waiting ==> st.secret.None? && st.startTime.None? && st.winner.None?)
    && (st.status == Countdown ==> st.secret.Some? && st.winner.None?)
    && (st.status == Playing ==> st.startTime.Some?)
    && (st.status == Finished ==> st.secret.Some? && st.startTime.Some? && st.winner.Some?)
  }

  /** No player has guessed the same number twice. */
  predicate NoRepeatedGuess(guesses: map<SocketId, seq<string>>) {
    forall s | s in guesses :: Distinct(guesses[s])
  }

  /**
   * What every room keeps: unique player ids, at most 16 players, a digit
   * length of 3 to 6, at most 100 chat messages, no repeated guess, a
   * secret that fits the digit length, and the phase facts.
   */
  predicate RoomOk(st: Room) {
    && Distinct(Ids(st.players)) && |st.players| <= MaxPlayers
    && 3 <= st.digitLength <= 6
    && |st.messages| <= MaxMessages
    && NoRepeatedGuess(st.guesses)
    && (st.secret.Some? ==> IsSecret(st.secret.value, st.digitLength))
    && PhaseOk(st)
  }

  /** What a registered room keeps besides: at least one player, the host among them. */
  predicate Occupied(st: Room) {
    RoomOk(st) && st.players != [] && st.hostId in Ids(st.players)
  }

  // ---------------------------------------------------------------- rooms

  /** The room literal built by `createRoom`, with its founder as only player and host. */
  function NewRoom(roomId: RoomId, hostSocketId: SocketId, username: string, now: int): (r: Room)
    ensures Occupied(r)
    ensures r.id == roomId && r.hostId == hostSocketId && Ids(r.players) == [hostSocketId]
    ensures r.status == Waiting && r.digitLength == DefaultDigitLength && r.messages == []
    ensures r.secret.None? && r.startTime.None? && r.winner.None?
    ensures r.guesses == map[] && r.guessResults == map[] && r.lastGuessTime == map[]
  {
    var r := Room(roomId, now, hostSocketId, [Player(hostSocketId, username, now)], DefaultDigitLength,
                  None, Waiting, None, None, map[], map[], map[], []);
    assert Ids(r.players) == [hostSocketId];
    r
  }

  /** `joinRoom`'s `players.set`: a new player joins a room below the cap that it is not already in. */
  function Joined(st: Room, p: Player): Room {
    st.(players := SetPlayer(st.players, p))
  }

  /** A join into a waiting room below the cap keeps a registered room's invariant. */
  lemma JoinKeepsRoom(st: Room, p: Player)
    requires Occupied(st) && |st.players| < MaxPlayers
    ensures Occupied(Joined(st, p))
    ensures p.id !in Ids(st.players) ==> Joined(st, p).players == st.players + [p]
    ensures forall x | x in Ids(Joined(st, p).players) :: x in Ids(st.players) || x == p.id
  {
    SetPlayerKeeps(st.players, p);
    if p.id !in Ids(st.players) {
      IdsConcat(st.players, [p]);
      assert Ids([p]) == [p.id];
    }
  }

  /** The duplicate-name loop of `joinRoom`: whether a player has the name, ignoring letter case. */
  method UsernameTaken(room: Room, username: string) returns (taken: bool)
    ensures taken == NameTaken(room.players, username)
  {
    var i := 0;
    while i < |room.players|
      invariant 0 <= i <= |room.players|
      invariant forall j | 0 <= j < i :: ToLower(room.players[j].username) != ToLower(username)
    {
      if ToLower(room.players[i].username) == ToLower(username) {
        return true;
      }
      i := i + 1;
    }
    return false;
  }

  /** `getSerializablePlayers(room)`: one view per player, in membership order. */
  method GetSerializablePlayers(room: Room) returns (list: seq<PlayerView>)
    ensures list == PlayerViews(room.players, room.hostId, room.guessResults)
  {
    list := [];
    var i := 0;
    while i < |room.players|
      invariant 0 <= i <= |room.players|
      invariant list == PlayerViews(room.players[..i], room.hostId, room.guessResults)
    {
      var player := room.players[i];
      var results := if player.id in room.guessResults then room.guessResults[player.id] else [];
      list := list + [PlayerView(player.id, player.username, player.id == room.hostId, |results|, MaxBulls(results))];
      i := i + 1;
    }
    assert room.players[..i] == room.players;
  }

  /** `getSerializableRoom(room)`: the client's snapshot of a room. */
  function GetSerializableRoom(room: Room): (v: RoomView)
    ensures v.id == room.id && v.hostId == room.hostId && v.status == room.status
    ensures |v.players| == |room.players|
    ensures forall i | 0 <= i < |v.players| ::
      v.players[i].id == room.players[i].id && (v.players[i].isHost <==> room.players[i].id == room.hostId)
    ensures v.digitLength == room.digitLength && v.startTime == room.startTime && v.winner == room.winner
    ensures v.players == PlayerViews(room.players, room.hostId, room.guessResults)
  {
    RoomView(room.id, room.hostId, PlayerViews(room.players, room.hostId, room.guessResults),
             room.digitLength, room.status, room.startTime, room.winner)
  }

  /** A room's lobby entry. */
  function Summary(id: RoomId, room: Room): PublicRoom {
    PublicRoom(id, |room.players|, MaxPlayers, room.digitLength, NameOrUnknown(room.players, room.hostId))
  }

  // ---------------------------------------------------------------- the registry

  /** `uuidv4().slice(0, 6).toUpperCase()`: a room id is at most six characters, none a lower-case letter. */
  function RoomIdOf(uuid: string): (id: RoomId)
    ensures |id| == if |uuid| < 6 then |uuid| else 6
    ensures forall i | 0 <= i < |id| :: !('a' <= id[i] <= 'z')
    ensures ToUpper(id) == id
  {
    ToUpper(if |uuid| < 6 then uuid else uuid[..6])
  }

  /** `order` lists each key exactly once: the iteration order of a `Map` with these keys. */
  predicate OrderOf(keys: set<RoomId>, order: seq<RoomId>) {
    Distinct(order) && (forall id | id in keys :: id in order) && (forall id | id in order :: id in keys)
  }

  lemma OrderAfterDelete(keys: set<RoomId>, order: seq<RoomId>, x: RoomId)
    requires OrderOf(keys, order)
    ensures OrderOf(keys - {x}, Without(order, x))
  {
  }

  lemma OrderAfterSet(keys: set<RoomId>, order: seq<RoomId>, x: RoomId)
    requires OrderOf(keys, order)
    ensures OrderOf(keys + {x}, if x in keys then order else order + [x])
  {
    if x !in keys {
      var o := order + [x];
      forall i, j | 0 <= i < j < |o| ensures o[i] != o[j] {
        if j == |order| { assert o[i] in order; }
      }
    }
  }

  /** Every room is filed under its own id. */
  predicate Keyed(rooms: map<RoomId, Room>) {
    forall id | id in rooms :: rooms[id].id == id
  }

  /** Every registered room keeps the room invariant, has a player and has its host among its players. */
  predicate Filed(rooms: map<RoomId, Room>) {
    forall id | id in rooms :: Occupied(rooms[id])
  }

  /** Filing a registered room under its own id keeps every room filed and registrable. */
  lemma FiledAfterSet(rooms: map<RoomId, Room>, key: RoomId, room: Room)
    requires Keyed(rooms) && Filed(rooms) && room.id == key && Occupied(room)
    ensures Keyed(rooms[key := room]) && Filed(rooms[key := room])
  {
    var m := rooms[key := room];
    forall id | id in m ensures m[id].id == id && Occupied(m[id]) {
      if id != key { assert m[id] == rooms[id]; }
    }
  }

  /** Unfiling a room keeps the others filed and registrable. */
  lemma FiledAfterDelete(rooms: map<RoomId, Room>, key: RoomId)
    requires Keyed(rooms) && Filed(rooms)
    ensures Keyed(rooms - {key}) && Filed(rooms - {key})
  {
    var m := rooms - {key};
    forall id | id in m ensures m[id].id == id && Occupied(m[id]) {
      assert m[id] == rooms[id];
    }
  }

  /** No socket is a player of two registered rooms. */
  predicate OnePerSocket(rooms: map<RoomId, Room>) {
    forall a, b, sid | a in rooms && b in rooms && sid in Ids(rooms[a].players) && sid in Ids(rooms[b].players) :: a == b
  }

  /** Whether the socket is a player of some registered room. */
  predicate Seated(rooms: map<RoomId, Room>, sid: SocketId) {
    exists id | id in rooms :: sid in Ids(rooms[id].players)
  }

  /**
   * Refiling a room keeps one room per socket when each of its players is a
   * player of no other room: a room that only loses players, or gains one
   * that was in no room.
   */
  lemma OnePerSocketAfterSet(rooms: map<RoomId, Room>, key: RoomId, room: Room)
    requires OnePerSocket(rooms)
    requires forall x | x in Ids(room.players) :: forall k | k in rooms && k != key :: x !in Ids(rooms[k].players)
    ensures OnePerSocket(rooms[key := room])
  {
    var m := rooms[key := room];
    forall a, b, x | a in m && b in m && x in Ids(m[a].players) && x in Ids(m[b].players) ensures a == b {
      if a != key && b != key {
        assert x in Ids(rooms[a].players) && x in Ids(rooms[b].players);
      }
    }
  }

  /** A room whose players all were players of the room it replaces keeps one room per socket. */
  lemma OnePerSocketAfterShrink(rooms: map<RoomId, Room>, key: RoomId, room: Room)
    requires OnePerSocket(rooms) && key in rooms
    requires forall x | x in Ids(room.players) :: x in Ids(rooms[key].players)
    ensures OnePerSocket(rooms[key := room])
  {
    OnePerSocketAfterSet(rooms, key, room);
  }

  /** A room that gains a socket seated nowhere keeps one room per socket. */
  lemma OnePerSocketAfterJoin(rooms: map<RoomId, Room>, key: RoomId, room: Room, sid: SocketId)
    requires OnePerSocket(rooms) && key in rooms && !Seated(rooms, sid)
    requires forall x | x in Ids(room.players) :: x in Ids(rooms[key].players) || x == sid
    ensures OnePerSocket(rooms[key := room])
    ensures Seated(rooms[key := room], sid) <==> sid in Ids(room.players)
  {
    OnePerSocketAfterSet(rooms, key, room);
    var m := rooms[key := room];
    if sid in Ids(room.players) {
      assert key in m && sid in Ids(m[key].players);
    }
  }

  /**
   * The first of `joinRoom`'s refusals that applies to a room in state
   * `st`: not waiting, full, or the name already used in any letter case.
   */
  function JoinError(st: Room, username: string): Option<string> {
    if st.status != Waiting then Some("Game already in progress.")
    else if |st.players| >= MaxPlayers then Some("Room is full (max 16 players).")
    else if NameTaken(st.players, username) then Some("Username already taken in this room.")
    else None
  }

  datatype JoinResult = JoinFailed(error: string) | JoinedRoom(room: Room)

  /** What `removePlayer` returns: null, `{deleted}`, `{newHostId, room}` or `{room}`. */
  datatype RemoveResult = NoSuchRoom | Deleted | NewHost(newHostId: SocketId, room: Room) | Removed(room: Room)

  /** The module-level `rooms` map; `order` is its insertion order. */
  class Registry {
    var rooms: map<RoomId, Room>
    var order: seq<RoomId>

    /**
     * `order` lists every key once, and each registered room is filed under
     * its own id, keeps the room invariant, has a player and a host among
     * its players.
     */
    predicate Valid()
      reads this
    {
      && OrderOf(rooms.Keys, order)
      && Keyed(rooms)
      && Filed(rooms)
    }

    constructor ()
      ensures Valid() && OnePerSocket(rooms)
      ensures rooms == map[] && order == []
    {
      rooms := map[];
      order := [];
    }

    /**
     * `createRoom(hostSocketId, username)`, with the string that `uuidv4()`
     * yielded as a parameter. An existing room with the same id is replaced
     * and keeps its place in the order, as `Map.set` does.
     */
    method CreateRoom(uuid: string, hostSocketId: SocketId, username: string, now: int) returns (room: Room)
      requires Valid()
      modifies this
      ensures Valid()
      ensures room == NewRoom(RoomIdOf(uuid), hostSocketId, username, now)
      ensures rooms == old(rooms)[room.id := room]
      ensures order == if room.id in old(rooms) then old(order) else old(order) + [room.id]
    {
      var roomId := RoomIdOf(uuid);
      room := Room(roomId, now, hostSocketId, [], DefaultDigitLength,
                   None, Waiting, None, None, map[], map[], map[], []);
      room := room.(players := SetPlayer(room.players, Player(hostSocketId, username, now)));
      Set(roomId, room);
    }

    /** `rooms.set(roomId, room)`: a new key goes last in the order, an existing one keeps its place. */
    method Set(roomId: RoomId, room: Room)
      requires Valid() && Occupied(room) && room.id == roomId
      modifies this
      ensures Valid()
      ensures rooms == old(rooms)[roomId := room]
      ensures order == if roomId in old(rooms) then old(order) else old(order) + [roomId]
    {
      OrderAfterSet(rooms.Keys, order, roomId);
      if roomId !in rooms {
        order := order + [roomId];
      }
      FiledAfterSet(rooms, roomId, room);
      rooms := rooms[roomId := room];
      assert rooms.Keys == old(rooms).Keys + {roomId};
    }

    /** `getRoom(roomId)`: the room filed under the id, which keeps what a registered room keeps. */
    function GetRoom(roomId: RoomId): (r: Option<Room>)
      reads this
      requires Valid()
      ensures r.Some? <==> roomId in rooms
      ensures r.Some? ==> r.value == rooms[roomId] && r.value.id == roomId && Occupied(r.value)
    {
      if roomId in rooms then Some(rooms[roomId]) else None
    }

    /** The lobby entries of the waiting rooms among `ids`, in that order. */
    function Listing(ids: seq<RoomId>): seq<PublicRoom>
      reads this
      requires forall i | 0 <= i < |ids| :: ids[i] in rooms
    {
      if ids == [] then []
      else
        var last := ids[|ids| - 1];
        Listing(ids[..|ids| - 1]) + (if rooms[last].status == Waiting then [Summary(last, rooms[last])] else [])
    }

    lemma {:induction false} ListingMembers(ids: seq<RoomId>)
      requires forall i | 0 <= i < |ids| :: ids[i] in rooms
      ensures forall e | e in Listing(ids) :: e.id in ids && e.id in rooms && rooms[e.id].status == Waiting && e == Summary(e.id, rooms[e.id])
      ensures forall id | id in ids && rooms[id].status == Waiting :: Summary(id, rooms[id]) in Listing(ids)
    {
      if ids != [] {
        var init := ids[..|ids| - 1];
        ListingMembers(init);
        forall id | id in ids ensures id in init || id == ids[|ids| - 1] {
          var k :| 0 <= k < |ids| && ids[k] == id;
          if k < |ids| - 1 { assert init[k] == id; }
        }
      }
    }

    /**
     * `getAllPublicRooms()`: the lobby entries of exactly the waiting rooms,
     * in registry order, each with its player count and the 16-player cap.
     */
    method GetAllPublicRooms() returns (list: seq<PublicRoom>)
      requires Valid()
      ensures list == Listing(order)
      ensures forall e | e in list ::
        (e.id in rooms && rooms[e.id].status == Waiting
         && e.playerCount == |rooms[e.id].players| && e.maxPlayers == MaxPlayers
         && e.digitLength == rooms[e.id].digitLength && e.hostName == NameOrUnknown(rooms[e.id].players, rooms[e.id].hostId))
      ensures forall id | id in rooms && rooms[id].status == Waiting :: Summary(id, rooms[id]) in list
    {
      list := [];
      var i := 0;
      while i < |order|
        invariant 0 <= i <= |order|
        invariant list == Listing(order[..i])
      {
        var id := order[i];
        var room := rooms[id];
        if room.status == Waiting {
          list := list + [PublicRoom(id, |room.players|, MaxPlayers, room.digitLength, NameOrUnknown(room.players, room.hostId))];
        }
        assert order[..i + 1][..i] == order[..i];
        i := i + 1;
      }
      assert order[..i] == order;
      ListingMembers(order);
    }

    /**
     * `joinRoom(roomId, socketId, username)`: fails, changing nothing, when
     * the room is missing, not waiting, full (16 players) or already has the
     * name in any letter case; otherwise sets the player in the room.
     */
    method JoinRoom(roomId: RoomId, socketId: SocketId, username: string, now: int) returns (res: JoinResult)
      requires Valid()
      modifies this
      ensures Valid()
      ensures order == old(order)
      ensures roomId !in old(rooms) ==> res == JoinFailed("Room not found.") && rooms == old(rooms)
      ensures roomId in old(rooms) ==>
        var err := JoinError(old(rooms[roomId]), username);
        && (err.Some? ==> res == JoinFailed(err.value) && rooms == old(rooms))
        && (err.None? ==>
              var r := Joined(old(rooms[roomId]), Player(socketId, username, now));
              res == JoinedRoom(r) && rooms == old(rooms)[roomId := r])
    {
      if roomId !in rooms {
        return JoinFailed("Room not found.");
      }
      var room := rooms[roomId];
      if room.status != Waiting {
        return JoinFailed("Game already in progress.");
      }
      if |room.players| >= MaxPlayers {
        return JoinFailed("Room is full (max 16 players).");
      }
      var taken := UsernameTaken(room, username);
      if taken {
        return JoinFailed("Username already taken in this room.");
      }
      var p := Player(socketId, username, now);
      JoinKeepsRoom(room, p);
      room := room.(players := SetPlayer(room.players, p));
      Set(roomId, room);
      res := JoinedRoom(room);
    }

    /**
     * `removePlayer(roomId, socketId)`: drops the socket's player, guesses,
     * results and rate-limit time; unregisters the room when nobody is
     * left; hands the host role to the first remaining player when the host
     * leaves.
     */
    method RemovePlayer(roomId: RoomId, socketId: SocketId) returns (res: RemoveResult)
      requires Valid()
      modifies this
      ensures Valid()
      ensures roomId !in old(rooms) ==> res == NoSuchRoom && rooms == old(rooms) && order == old(order)
      ensures roomId in old(rooms) ==>
        var t := AfterLeave(old(rooms[roomId]), socketId);
        && (t.players == [] ==> res == Deleted && rooms == old(rooms) - {roomId} && order == Without(old(order), roomId))
        && (t.players != [] ==>
              && rooms == old(rooms)[roomId := t] && order == old(order)
              && res == (if socketId == old(rooms[roomId].hostId) then NewHost(t.hostId, t) else Removed(t)))
    {
      if roomId !in rooms {
        return NoSuchRoom;
      }
      var room := rooms[roomId];
      LeaveKeepsHost(room, socketId);
      room := room.(players := DeletePlayer(room.players, socketId), guesses := room.guesses - {socketId},
                    guessResults := room.guessResults - {socketId}, lastGuessTime := room.lastGuessTime - {socketId});
      if |room.players| == 0 {
        DeleteRoom(roomId);
        return Deleted;
      }
      if socketId == room.hostId {
        var firstPlayer := room.players[0].id;
        room := room.(hostId := firstPlayer);
        Set(roomId, room);
        return NewHost(firstPlayer, room);
      }
      Set(roomId, room);
      return Removed(room);
    }

    /** `deleteRoom(roomId)`: unregisters the room; deleting an id that is not there changes nothing. */
    method DeleteRoom(roomId: RoomId)
      requires Valid()
      modifies this
      ensures Valid()
      ensures roomId !in rooms
      ensures rooms == old(rooms) - {roomId} && order == Without(old(order), roomId)
      ensures roomId !in old(rooms) ==> rooms == old(rooms) && order == old(order)
    {
      OrderAfterDelete(rooms.Keys, order, roomId);
      FiledAfterDelete(rooms, roomId);
      rooms := rooms - {roomId};
      order := Without(order, roomId);
      assert rooms.Keys == old(rooms).Keys - {roomId};
    }

    /**
     * `findRoomBySocket(socketId)`: the first room, in registry order, that
     * has the socket as a player, or none when no room has it.
     */
    method FindRoomBySocket(socketId: SocketId) returns (r: Option<RoomId>)
      requires Valid()
      ensures r.None? <==> !Seated(rooms, socketId)
      ensures r.Some? ==> r.value in rooms && socketId in Ids(rooms[r.value].players)
      ensures r.Some? ==> exists k | 0 <= k < |order| ::
        (order[k] == r.value && forall j | 0 <= j < k :: socketId !in Ids(rooms[order[j]].players))
    {
      var i := 0;
      while i < |order|
        invariant 0 <= i <= |order|
        invariant forall j | 0 <= j < i :: socketId !in Ids(rooms[order[j]].players)
      {
        var id := order[i];
        if socketId in Ids(rooms[id].players) {
          return Some(id);
        }
        i := i + 1;
      }
      forall id | id in rooms ensures socketId !in Ids(rooms[id].players) {
        var k :| 0 <= k < |order| && order[k] == id;
      }
      return None;
    }
  }

  /** Deleting a player keeps the other keys, and keeps keys unique. */
  lemma DeleteKeepsIds(ps: seq<Player>, id: SocketId)
    requires Distinct(Ids(ps))
    ensures Distinct(Ids(DeletePlayer(ps, id)))
    ensures forall x :: x in Ids(DeletePlayer(ps, id)) <==> x in Ids(ps) && x != id
  {
    DeletePlayerIds(ps, id);
  }

  /** Setting a player keeps every key and, on unique keys, keeps them unique. */
  lemma SetPlayerKeeps(ps: seq<Player>, p: Player)
    ensures forall x | x in Ids(ps) :: x in Ids(SetPlayer(ps, p))
    ensures p.id in Ids(SetPlayer(ps, p))
    ensures Distinct(Ids(ps)) ==> Distinct(Ids(SetPlayer(ps, p)))
    ensures |SetPlayer(ps, p)| <= |ps| + 1
    ensures p.id !in Ids(ps) ==> SetPlayer(ps, p) == ps + [p]
    ensures p.id in Ids(ps) ==> Ids(SetPlayer(ps, p)) == Ids(ps)
  {
    var r := SetPlayer(ps, p);
    SetPlayerIds(ps, p);
    assert p in r;
    if p.id !in Ids(ps) {
      IdsConcat(ps, [p]);
      assert Ids([p]) == [p.id];
      if Distinct(Ids(ps)) {
        forall i, j | 0 <= i < j < |r| ensures Ids(r)[i] != Ids(r)[j] {
          if j == |ps| { assert Ids(r)[i] in Ids(ps); }
        }
      }
    }
  }
}
