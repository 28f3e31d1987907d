/**
 * The event handlers of backend/socketHandler.js, one method per event,
 * over the registry of RoomManager. What a handler passes to its callback
 * is its `Reply`, what it broadcasts is its list of `Event`s, and a
 * `setTimeout` it schedules is a returned `Timer` whose body is a method
 * of its own (CountdownElapsed, AutoDelete). Handlers run one at a time,
 * as Node's event loop runs them. A handler that updates the room object it
 * looked up works on the room's value and files the new value back under
 * the room's id (WriteBack).
 */
module SocketHandler {
  import opened Wrappers
  import opened Js
  import opened GameLogic
  import opened RoomManager
  import opened Leaderboard

  const RateLimitMs: int := 1000
  const CountdownMs: int := 3500
  const AutoDeleteMs: int := 60000
  const MaxUsernameLength: nat := 20
  const MaxChatLength: nat := 200

  /** What a handler passes to its callback. */
  datatype Reply =
    | Failure(error: string)
    | RoomReply(room: RoomView)
    | Success
    | GuessReply(result: GuessEntry, guessNumber: nat)
    | Crashed    // the handler throws before calling back

  /** A broadcast to the sockets of room `to`. */
  datatype Event =
    | PlayerJoined(to: RoomId, playerId: SocketId, username: string, players: seq<PlayerView>)  // to all but the joining socket
    | SettingsUpdated(to: RoomId, digitLength: int)
    | GameCountdown(to: RoomId, digitLength: int)
    | GameStarted(to: RoomId, digitLength: int, startTime: int)
    | PlayerGuessed(to: RoomId, playerId: SocketId, username: string, guessCount: nat, bulls: nat, cows: nat)
    | LeaderboardUpdate(to: RoomId, leaderboard: seq<PlayerView>)
    | GameWon(to: RoomId, winner: Winner, secret: string)
    | GameRestarted(to: RoomId, room: RoomView)
    | ChatMessage(to: RoomId, message: Message)
    | HostChanged(to: RoomId, newHostId: SocketId, newHostName: string)
    | PlayerLeft(to: RoomId, playerId: SocketId, username: string, players: seq<PlayerView>)

  /**
   * The body of a pending `setTimeout`: the countdown's end, for the room
   * and the digit length it was started with, or the auto-delete after a win.
   */
  datatype Task = StartPlaying(roomId: RoomId, digitLength: int) | RemoveRoom(roomId: RoomId)
  datatype Timer = Timer(delayMs: int, task: Task)

  // ---------------------------------------------------------------- server invariant

  /** The registered room that has the socket as a player. */
  ghost function SeatOf(rooms: map<RoomId, Room>, sid: SocketId): (id: RoomId)
    requires Seated(rooms, sid)
    ensures id in rooms && sid in Ids(rooms[id].players)
  {
    var id :| id in rooms && sid in Ids(rooms[id].players); id
  }

  /**
   * What the handlers keep: the registry invariant, no socket in two rooms,
   * and no room under the empty id (`uuidv4()` yields 36 characters, so a
   * room id has six).
   */
  ghost predicate Consistent(reg: Registry)
    reads reg
  {
    reg.Valid() && OnePerSocket(reg.rooms) && "" !in reg.rooms
  }

  /**
   * The username checks of `createRoom` and `joinRoom`: required (missing,
   * or blank after trim), then at most 20 characters after trim. `None`
   * stands for a missing or non-string username.
   */
  function UsernameError(username: Option<string>): (e: Option<string>)
    ensures e == Some("Username is required.") <==> username.None? || AllWhitespace(username.value)
    ensures e == Some("Username must be 20 characters or less.") <==>
      username.Some? && !AllWhitespace(username.value) && JsLength(Trim(username.value)) > MaxUsernameLength
    ensures e.None? <==>
      username.Some? && Trim(username.value) != [] && JsLength(Trim(username.value)) <= MaxUsernameLength
  {
    if username.None? || username.value == "" || JsLength(Trim(username.value)) == 0 then Some("Username is required.")
    else if JsLength(Trim(username.value)) > MaxUsernameLength then Some("Username must be 20 characters or less.")
    else None
  }

  /** The text `chatMessage` stores: the trimmed text when it has 1 to 200 characters, else nothing. */
  function ChatText(text: Option<string>): (t: Option<string>)
    ensures t.Some? <==> text.Some? && !AllWhitespace(text.value) && JsLength(Trim(text.value)) <= MaxChatLength
    ensures t.Some? ==> t.value == Trim(text.value) && 1 <= |t.value| <= MaxChatLength
  {
    if text.None? || text.value == "" || JsLength(Trim(text.value)) == 0 || JsLength(Trim(text.value)) > MaxChatLength then None
    else Some(Trim(text.value))
  }

  /** `Math.round(ms / 1000)`: the nearest whole number of seconds, a half rounded up. */
  function RoundedSeconds(ms: int): (s: int)
    ensures 1000 * s - 500 <= ms < 1000 * s + 500
  {
    (ms + 500) / 1000
  }

  /** The chat log after a push: `slice(-100)` once it is over 100, so the newest 100, oldest first. */
  function Capped(log: seq<Message>): (r: seq<Message>)
    ensures |r| <= MaxMessages
    ensures |r| == |log| || |r| == MaxMessages
    ensures |r| <= |log| && r == log[|log| - |r|..]
  {
    if |log| > MaxMessages then log[|log| - MaxMessages..] else log
  }

  // ---------------------------------------------------------------- room transitions

  /** `setDigitLength`'s refusals, in order, for a room that exists. */
  function SettingsError(st: Room, sid: SocketId, digitLength: int): Option<string> {
    if st.hostId != sid then Some("Only the host can change settings.")
    else if st.status != Waiting then Some("Cannot change settings during game.")
    else if digitLength !in {3, 4, 5, 6} then Some("Digit length must be 3, 4, 5, or 6.")
    else None
  }

  /** `startGame`'s refusals, in order, for a room that exists. */
  function StartError(st: Room, sid: SocketId): Option<string> {
    if st.hostId != sid then Some("Only the host can start the game.")
    else if st.status != Waiting then Some("Game already started.")
    else if |st.players| < 2 then Some("Need at least 2 players to start.")
    else None
  }

  /** An empty list under each of `ids`. */
  function EmptyFor<V>(ids: seq<SocketId>): map<SocketId, seq<V>> {
    map id | id in ids :: []
  }

  /** The room once `startGame` succeeds: the secret, the countdown, an empty guess and result list per player. */
  function Started(st: Room, secret: string): Room {
    st.(secret := Some(secret), status := Countdown,
        guesses := st.guesses + EmptyFor(Ids(st.players)),
        guessResults := st.guessResults + EmptyFor(Ids(st.players)))
  }

  /** The room once the countdown timer fires. */
  function Elapsed(st: Room, now: int): Room {
    st.(status := Playing, startTime := Some(now))
  }

  /** `lastGuessTime.get(sid) || 0`. */
  function LastGuessAt(st: Room, sid: SocketId): int {
    if sid in st.lastGuessTime then st.lastGuessTime[sid] else 0
  }

  /** `guesses.get(sid) || []`. */
  function GuessesOf(st: Room, sid: SocketId): seq<string> {
    if sid in st.guesses then st.guesses[sid] else []
  }

  /** `submitGuess`'s refusals after the room lookup, in order: phase, membership, rate limit, validation. */
  function GuessRefusal(st: Room, sid: SocketId, guess: Option<string>, now: int): Option<string> {
    if st.status != Playing then Some("Game is not active.")
    else if sid !in Ids(st.players) then Some("You are not in this room.")
    else if now - LastGuessAt(st, sid) < RateLimitMs then Some("Too fast! Wait a moment between guesses.")
    else match ValidateGuess(guess, st.digitLength, GuessesOf(st, sid))
      case Invalid(e) => Some(Reason(e))
      case Valid => None
  }

  /** The guess and its time recorded for the player. */
  function Guessed(st: Room, sid: SocketId, g: string, now: int): Room {
    st.(lastGuessTime := st.lastGuessTime[sid := now], guesses := st.guesses[sid := GuessesOf(st, sid) + [g]])
  }

  /** The scored guess appended to the player's results. */
  function Scored(st: Room, sid: SocketId, e: GuessEntry): Room {
    st.(guessResults := st.guessResults[sid := ResultsOf(st.guessResults, sid) + [e]])
  }

  /** The game over, with its winner. */
  function Won(st: Room, w: Winner): Room {
    st.(status := Finished, winner := Some(w))
  }

  /** The room once the host restarts it: waiting, and everything about the last game gone. */
  function Restarted(st: Room): Room {
    st.(status := Waiting, secret := None, startTime := None, winner := None,
        guesses := map[], guessResults := map[], lastGuessTime := map[])
  }

  /** The room with a chat message pushed and the log capped. */
  function Chatted(st: Room, m: Message): Room {
    st.(messages := Capped(st.messages + [m]))
  }

  /** Starting a game keeps a registered room's invariant and gives every player empty lists. */
  lemma StartKeepsRoom(st: Room, secret: string)
    requires Occupied(st) && StartError(st, st.hostId).None? && IsSecret(secret, st.digitLength)
    ensures Occupied(Started(st, secret))
    ensures forall id | id in Ids(st.players) ::
      Started(st, secret).guesses[id] == [] && Started(st, secret).guessResults[id] == []
  {
    var t := Started(st, secret);
    forall s | s in t.guesses ensures Distinct(t.guesses[s]) {
      if s !in Ids(st.players) { assert t.guesses[s] == st.guesses[s]; }
    }
  }

  /** The countdown's end keeps the room invariant, whatever phase the room is in by then. */
  lemma ElapsedKeepsRoom(st: Room, now: int)
    requires RoomOk(st)
    ensures RoomOk(Elapsed(st, now))
    ensures Occupied(st) ==> Occupied(Elapsed(st, now))
  {
  }

  /** Recording a guess that passed every check keeps the room invariant: the guess was not in the player's list. */
  lemma GuessKeepsRoom(st: Room, sid: SocketId, g: string, now: int)
    requires Occupied(st) && GuessRefusal(st, sid, Some(g), now).None?
    ensures Occupied(Guessed(st, sid, g, now))
    ensures WellFormedGuess(g, st.digitLength) && g !in GuessesOf(st, sid)
  {
    var prev := GuessesOf(st, sid);
    AppendDistinct(prev, g);
    var t := Guessed(st, sid, g, now);
    forall s | s in t.guesses ensures Distinct(t.guesses[s]) {
      if s != sid { assert t.guesses[s] == st.guesses[s]; }
    }
  }

  /**
   * A recorded guess wins exactly when it is the secret: the guess has the
   * digit length, so all its digits are bulls only when it equals the secret.
   */
  lemma WinExactlyOnSecret(st: Room, sid: SocketId, g: string, now: int)
    requires Occupied(st) && GuessRefusal(st, sid, Some(g), now).None? && st.secret.Some?
    ensures Bulls(st.secret.value, g) == st.digitLength <==> g == st.secret.value
  {
    GuessKeepsRoom(st, sid, g, now);
    BullsExactlyWhenEqual(st.secret.value, g);
  }

  /** Scoring and the win keep a registered room's invariant: a playing room has its start time and a secret. */
  lemma ScoreKeepsRoom(st: Room, sid: SocketId, e: GuessEntry, w: Winner)
    requires Occupied(st) && st.status == Playing && st.secret.Some?
    ensures Occupied(Scored(st, sid, e))
    ensures Occupied(Won(st, w))
  {
  }

  /** A restart keeps a registered room's invariant, whatever its phase. */
  lemma RestartKeepsRoom(st: Room)
    requires Occupied(st)
    ensures Occupied(Restarted(st))
    ensures Restarted(st).(status := st.status, secret := st.secret, startTime := st.startTime, winner := st.winner,
                           guesses := st.guesses, guessResults := st.guessResults, lastGuessTime := st.lastGuessTime) == st
  {
  }

  /** A chat message keeps a registered room's invariant; the log keeps the newest messages, the new one last. */
  lemma ChatKeepsRoom(st: Room, m: Message)
    requires Occupied(st)
    ensures Occupied(Chatted(st, m))
    ensures Chatted(st, m).messages[|Chatted(st, m).messages| - 1] == m
  {
    var log := st.messages + [m];
    var r := Capped(log);
    assert r[|r| - 1] == log[|log| - 1];
  }

  // ---------------------------------------------------------------- handlers

  /**
   * A handler's in-place updates to the room object it looked up, as the
   * room's new value filed under its id. The room keeps or loses players;
   * it never gains one here.
   */
  method WriteBack(reg: Registry, roomId: RoomId, room: Room)
    requires Consistent(reg) && roomId in reg.rooms && room.id == roomId && Occupied(room)
    requires forall x | x in Ids(room.players) :: x in Ids(reg.rooms[roomId].players)
    modifies reg
    ensures Consistent(reg)
    ensures reg.rooms == old(reg.rooms)[roomId := room] && reg.order == old(reg.order)
  {
    OnePerSocketAfterShrink(reg.rooms, roomId, room);
    reg.Set(roomId, room);
  }

  /** `createRoom`: a room with the caller as its only player and host, unless a check fails. */
  method OnCreateRoom(reg: Registry, sid: SocketId, username: Option<string>, uuid: string, now: int)
    returns (reply: Reply)
    requires Consistent(reg)
    requires |uuid| >= 6
    modifies reg
    ensures Consistent(reg)
    ensures UsernameError(username).Some? ==>
      reply == Failure(UsernameError(username).value) && reg.rooms == old(reg.rooms) && reg.order == old(reg.order)
    ensures UsernameError(username).None? && old(Seated(reg.rooms, sid)) ==>
      reply == Failure("You are already in a room. Leave first.") && reg.rooms == old(reg.rooms) && reg.order == old(reg.order)
    ensures UsernameError(username).None? && !old(Seated(reg.rooms, sid)) ==>
      var room := NewRoom(RoomIdOf(uuid), sid, Trim(username.value), now);
      && reg.rooms == old(reg.rooms)[room.id := room]
      && reg.order == (if room.id in old(reg.rooms) then old(reg.order) else old(reg.order) + [room.id])
      && reply == RoomReply(GetSerializableRoom(room))
      && Seated(reg.rooms, sid)
  {
    var e := UsernameError(username);
    if e.Some? {
      return Failure(e.value);
    }
    var existing := reg.FindRoomBySocket(sid);
    if existing.Some? {
      return Failure("You are already in a room. Leave first.");
    }
    ghost var before := reg.rooms;
    var room := reg.CreateRoom(uuid, sid, Trim(username.value), now);
    OnePerSocketAfterSet(before, room.id, room);
    assert room.id in reg.rooms && sid in Ids(reg.rooms[room.id].players);
    reply := RoomReply(GetSerializableRoom(room));
  }

  /**
   * The registry half of `joinRoom`, for a socket that is in no room: the
   * room's refusals, or the join and the broadcast to the others.
   */
  method JoinUnseated(reg: Registry, sid: SocketId, id: RoomId, name: string, now: int)
    returns (reply: Reply, events: seq<Event>)
    requires Consistent(reg) && !Seated(reg.rooms, sid)
    modifies reg
    ensures Consistent(reg) && reg.order == old(reg.order)
    ensures reply.Failure? ==> events == [] && reg.rooms == old(reg.rooms)
    ensures id !in old(reg.rooms) ==> reply == Failure("Room not found.")
    ensures id in old(reg.rooms) ==>
      var st := old(reg.rooms[id]);
      && (JoinError(st, name).Some? ==> reply == Failure(JoinError(st, name).value))
      && (JoinError(st, name).None? ==>
            var r := st.(players := st.players + [Player(sid, name, now)]);
            && reg.rooms == old(reg.rooms)[id := r]
            && reply == RoomReply(GetSerializableRoom(r))
            && events == [PlayerJoined(id, sid, name, PlayerViews(r.players, r.hostId, r.guessResults))]
            && Seated(reg.rooms, sid))
  {
    ghost var before := reg.rooms;
    var res := reg.JoinRoom(id, sid, name, now);
    if res.JoinFailed? {
      return Failure(res.error), [];
    }
    var room := res.room;
    assert sid !in Ids(before[id].players);
    JoinKeepsRoom(before[id], Player(sid, name, now));
    OnePerSocketAfterJoin(before, id, room, sid);
    var players := GetSerializablePlayers(room);
    events := [PlayerJoined(room.id, sid, name, players)];
    reply := RoomReply(GetSerializableRoom(room));
  }

  /** `joinRoom`: the caller joins the room with the upper-cased id, unless a check fails. */
  method OnJoinRoom(reg: Registry, sid: SocketId, roomId: Option<string>, username: Option<string>, now: int)
    returns (reply: Reply, events: seq<Event>)
    requires Consistent(reg)
    modifies reg
    ensures Consistent(reg) && reg.order == old(reg.order)
    ensures reply.Failure? ==> events == [] && reg.rooms == old(reg.rooms)
    ensures UsernameError(username).Some? ==> reply == Failure(UsernameError(username).value)
    ensures UsernameError(username).None? && (roomId.None? || roomId.value == "") ==>
      reply == Failure("Room ID is required.")
    ensures UsernameError(username).None? && roomId.Some? && roomId.value != "" && old(Seated(reg.rooms, sid)) ==>
      reply == Failure("You are already in a room.")
    ensures UsernameError(username).None? && roomId.Some? && roomId.value != "" && !old(Seated(reg.rooms, sid)) ==>
      var id := ToUpper(roomId.value);
      var name := Trim(username.value);
      && (id !in old(reg.rooms) ==> reply == Failure("Room not found."))
      && (id in old(reg.rooms) ==>
            var st := old(reg.rooms[id]);
            && (JoinError(st, name).Some? ==> reply == Failure(JoinError(st, name).value))
            && (JoinError(st, name).None? ==>
                  var r := st.(players := st.players + [Player(sid, name, now)]);
                  && reg.rooms == old(reg.rooms)[id := r]
                  && reply == RoomReply(GetSerializableRoom(r))
                  && events == [PlayerJoined(id, sid, name, PlayerViews(r.players, r.hostId, r.guessResults))]
                  && Seated(reg.rooms, sid)))
  {
    var e := UsernameError(username);
    if e.Some? {
      return Failure(e.value), [];
    }
    if roomId.None? || roomId.value == "" {
      return Failure("Room ID is required."), [];
    }
    var existing := reg.FindRoomBySocket(sid);
    if existing.Some? {
      return Failure("You are already in a room."), [];
    }
    reply, events := JoinUnseated(reg, sid, ToUpper(roomId.value), Trim(username.value), now);
  }

  /** `setDigitLength`: the host of a waiting room sets a digit length of 3 to 6. */
  method OnSetDigitLength(reg: Registry, sid: SocketId, roomId: RoomId, digitLength: int)
    returns (reply: Reply, events: seq<Event>)
    requires Consistent(reg)
    modifies reg
    ensures Consistent(reg) && reg.order == old(reg.order)
    ensures roomId !in old(reg.rooms) ==> reply == Failure("Room not found.") && events == [] && reg.rooms == old(reg.rooms)
    ensures roomId in old(reg.rooms) ==>
      var st := old(reg.rooms[roomId]);
      var err := SettingsError(st, sid, digitLength);
      && (err.Some? ==> reply == Failure(err.value) && events == [] && reg.rooms == old(reg.rooms))
      && (err.None? ==> reply == Success && events == [SettingsUpdated(roomId, digitLength)]
                        && reg.rooms == old(reg.rooms)[roomId := st.(digitLength := digitLength)])
  {
    var found := reg.GetRoom(roomId);
    if found.None? {
      return Failure("Room not found."), [];
    }
    var room := found.value;
    if room.hostId != sid {
      return Failure("Only the host can change settings."), [];
    }
    if room.status != Waiting {
      return Failure("Cannot change settings during game."), [];
    }
    if digitLength !in {3, 4, 5, 6} {
      return Failure("Digit length must be 3, 4, 5, or 6."), [];
    }
    room := room.(digitLength := digitLength);
    WriteBack(reg, roomId, room);
    reply, events := Success, [SettingsUpdated(roomId, digitLength)];
  }

  /** Setting one more key of the player loop adds an empty list under it. */
  lemma EmptyForStep<V>(m: map<SocketId, seq<V>>, ids: seq<SocketId>, i: nat)
    requires i < |ids|
    ensures m + EmptyFor(ids[..i + 1]) == (m + EmptyFor(ids[..i]))[ids[i] := []]
  {
    assert ids[..i + 1] == ids[..i] + [ids[i]];
  }

  /** The body of `startGame` once its checks pass: the secret, the countdown, and the per-player loop. */
  method BeginCountdown(room: Room, secret: string) returns (r: Room)
    ensures r == Started(room, secret)
  {
    r := room.(secret := Some(secret), status := Countdown);
    var ids := Ids(r.players);
    var guesses, results := r.guesses, r.guessResults;
    assert guesses + EmptyFor(ids[..0]) == guesses && results + EmptyFor(ids[..0]) == results;
    var i := 0;
    while i < |ids|
      invariant 0 <= i <= |ids|
      invariant guesses == room.guesses + EmptyFor(ids[..i])
      invariant results == room.guessResults + EmptyFor(ids[..i])
    {
      var playerId := ids[i];
      EmptyForStep(room.guesses, ids, i);
      EmptyForStep(room.guessResults, ids, i);
      guesses := guesses[playerId := []];
      results := results[playerId := []];
      i := i + 1;
    }
    assert ids[..i] == ids;
    r := r.(guesses := guesses, guessResults := results);
  }

  /**
   * `startGame`: the host of a waiting room with two or more players draws
   * the secret (`picks` are the random pool indices) and starts the
   * countdown, whose end is the returned timer.
   */
  method OnStartGame(reg: Registry, sid: SocketId, roomId: RoomId, picks: seq<nat>)
    returns (reply: Reply, events: seq<Event>, timer: Option<Timer>)
    requires Consistent(reg)
    requires |picks| >= 6 && ValidPicks(picks)
    modifies reg
    ensures Consistent(reg) && reg.order == old(reg.order)
    ensures roomId !in old(reg.rooms) ==>
      reply == Failure("Room not found.") && events == [] && timer.None? && reg.rooms == old(reg.rooms)
    ensures roomId in old(reg.rooms) ==>
      var st := old(reg.rooms[roomId]);
      && (StartError(st, sid).Some? ==>
            reply == Failure(StartError(st, sid).value) && events == [] && timer.None? && reg.rooms == old(reg.rooms))
      && (StartError(st, sid).None? ==>
            && roomId in reg.rooms
            && var secret := reg.rooms[roomId].secret;
            && secret.Some? && IsSecret(secret.value, st.digitLength) && secret.value[0] == "123456789"[picks[0]]
            && reg.rooms == old(reg.rooms)[roomId := Started(st, secret.value)]
            && reply == Success && events == [GameCountdown(roomId, st.digitLength)]
            && timer == Some(Timer(CountdownMs, StartPlaying(roomId, st.digitLength))))
  {
    var found := reg.GetRoom(roomId);
    if found.None? {
      return Failure("Room not found."), [], None;
    }
    var room := found.value;
    if room.hostId != sid {
      return Failure("Only the host can start the game."), [], None;
    }
    if room.status != Waiting {
      return Failure("Game already started."), [], None;
    }
    if |room.players| < 2 {
      return Failure("Need at least 2 players to start."), [], None;
    }
    var secret := GenerateSecret(room.digitLength, picks);
    StartKeepsRoom(room, secret);
    room := BeginCountdown(room, secret);
    WriteBack(reg, roomId, room);
    reply, events := Success, [GameCountdown(roomId, room.digitLength)];
    timer := Some(Timer(CountdownMs, StartPlaying(roomId, room.digitLength)));
  }

  /**
   * The countdown timer's body: the room starts playing, whatever its phase
   * by now. A room deleted meanwhile is no longer there to change; the
   * broadcast still goes out, with the digit length the game started with.
   */
  method CountdownElapsed(reg: Registry, task: Task, now: int) returns (events: seq<Event>)
    requires Consistent(reg) && task.StartPlaying?
    modifies reg
    ensures Consistent(reg) && reg.order == old(reg.order)
    ensures task.roomId in old(reg.rooms) ==>
      var st := old(reg.rooms[task.roomId]);
      reg.rooms == old(reg.rooms)[task.roomId := Elapsed(st, now)] && events == [GameStarted(task.roomId, st.digitLength, now)]
    ensures task.roomId !in old(reg.rooms) ==>
      reg.rooms == old(reg.rooms) && events == [GameStarted(task.roomId, task.digitLength, now)]
  {
    var found := reg.GetRoom(task.roomId);
    if found.None? {
      return [GameStarted(task.roomId, task.digitLength, now)];
    }
    var room := found.value;
    ElapsedKeepsRoom(room, now);
    room := room.(status := Playing, startTime := Some(now));
    WriteBack(reg, task.roomId, room);
    events := [GameStarted(task.roomId, room.digitLength, now)];
  }

  /** What an accepted guess leads to: the room afterwards, the reply to the guesser, the broadcasts and the timer. */
  datatype Outcome = Outcome(state: Room, reply: Reply, events: seq<Event>, timer: Option<Timer>)

  /**
   * `submitGuess` once a guess has passed every check and been recorded in
   * `rec`, a room with a secret, up to the win check: the guess is scored,
   * and broadcast with the sorted leaderboard.
   */
  function ScoreRecorded(rec: Room, roomId: RoomId, sid: SocketId, g: string): Outcome
    requires rec.secret.Some? && sid in Ids(rec.players)
  {
    var secret := rec.secret.value;
    var entry := GuessEntry(g, Bulls(secret, g), Cows(secret, g));
    var scored := Scored(rec, sid, entry);
    var count := |ResultsOf(rec.guessResults, sid)| + 1;
    Outcome(scored, GuessReply(entry, count), GuessBroadcast(scored, roomId, sid, entry, count), None)
  }

  /** The broadcasts of a scored guess: who guessed and how well, then the sorted leaderboard. */
  function GuessBroadcast(scored: Room, roomId: RoomId, sid: SocketId, entry: GuessEntry, count: nat): seq<Event>
    requires sid in Ids(scored.players)
  {
    var name := FindPlayer(scored.players, sid).value.username;
    var views := PlayerViews(scored.players, scored.hostId, scored.guessResults);
    [PlayerGuessed(roomId, sid, name, count, entry.bulls, entry.cows), LeaderboardUpdate(roomId, Sort(views))]
  }

  /** `submitGuess` up to the win check, for a guess that passed every check in a room with a secret. */
  function Scoring(st: Room, roomId: RoomId, sid: SocketId, g: string, now: int): Outcome
    requires st.secret.Some? && sid in Ids(st.players)
  {
    ScoreRecorded(Guessed(st, sid, g, now), roomId, sid, g)
  }

  /**
   * The win check of `submitGuess` after scoring `o`: when all the guess's
   * digits are bulls, the game is won by the guesser, announced with the
   * secret, and the room's deletion is scheduled.
   */
  function WinCheck(st: Room, roomId: RoomId, sid: SocketId, now: int, o: Outcome): Outcome
    requires st.secret.Some? && st.startTime.Some? && sid in Ids(st.players) && o.reply.GuessReply?
  {
    if o.reply.result.bulls == st.digitLength then
      var w := Winner(sid, FindPlayer(st.players, sid).value.username, o.reply.guessNumber,
                      RoundedSeconds(now - st.startTime.value));
      Outcome(Won(o.state, w), o.reply, o.events + [GameWon(roomId, w, st.secret.value)],
              Some(Timer(AutoDeleteMs, RemoveRoom(roomId))))
    else o
  }

  /** All of `submitGuess` for a guess that passed every check in a room with a secret: scoring, then the win check. */
  function Accepted(st: Room, roomId: RoomId, sid: SocketId, g: string, now: int): Outcome
    requires st.secret.Some? && st.startTime.Some? && sid in Ids(st.players)
  {
    WinCheck(st, roomId, sid, now, Scoring(st, roomId, sid, g, now))
  }

  /** Scoring a recorded guess in a playing room keeps its invariant and changes only the results. */
  lemma RecordedScore(rec: Room, roomId: RoomId, sid: SocketId, g: string)
    requires Occupied(rec) && rec.status == Playing && rec.secret.Some? && sid in Ids(rec.players)
    ensures Occupied(ScoreRecorded(rec, roomId, sid, g).state)
    ensures ScoreRecorded(rec, roomId, sid, g).state.(guessResults := rec.guessResults) == rec
  {
    var secret := rec.secret.value;
    ScoreKeepsRoom(rec, sid, GuessEntry(g, Bulls(secret, g), Cows(secret, g)), Winner(sid, "", 0, 0));
  }

  /** The reply to a scored guess: its bulls and cows, numbered by the player's results, which now end with it. */
  lemma RecordedReply(rec: Room, roomId: RoomId, sid: SocketId, g: string)
    requires rec.secret.Some? && sid in Ids(rec.players)
    ensures var o := ScoreRecorded(rec, roomId, sid, g);
      && o.reply == GuessReply(GuessEntry(g, Bulls(rec.secret.value, g), Cows(rec.secret.value, g)),
                               |ResultsOf(rec.guessResults, sid)| + 1)
      && o.state.guessResults[sid] == ResultsOf(rec.guessResults, sid) + [o.reply.result]
      && o.timer.None?
  {
  }

  /**
   * Scoring an accepted guess keeps a registered room's invariant and the
   * game running, appends the guess to the player's guesses and its score
   * to the player's results, and scores all digits as bulls exactly when
   * the guess is the secret.
   */
  lemma ScoredGuess(st: Room, roomId: RoomId, sid: SocketId, g: string, now: int)
    requires Occupied(st) && GuessRefusal(st, sid, Some(g), now).None? && st.secret.Some?
    ensures st.startTime.Some? && sid in Ids(st.players)
    ensures var o := Scoring(st, roomId, sid, g, now);
      && Occupied(o.state) && o.state.status == Playing && o.state.winner == st.winner
      && o.state.id == st.id && o.state.players == st.players && o.state.hostId == st.hostId && o.state.secret == st.secret
      && o.state.startTime == st.startTime
      && o.state.guesses[sid] == GuessesOf(st, sid) + [g] && o.state.lastGuessTime[sid] == now
      && o.reply.GuessReply? && o.reply.result.guess == g
      && o.state.guessResults[sid] == ResultsOf(st.guessResults, sid) + [o.reply.result]
      && o.reply.guessNumber == |o.state.guessResults[sid]|
      && (o.reply.result.bulls == st.digitLength <==> g == st.secret.value)
      && o.timer.None?
  {
    WinExactlyOnSecret(st, sid, g, now);
    GuessKeepsRoom(st, sid, g, now);
    RecordedScore(Guessed(st, sid, g, now), roomId, sid, g);
    RecordedReply(Guessed(st, sid, g, now), roomId, sid, g);
  }

  /**
   * The win check changes only the phase and the winner, keeps the reply,
   * and on an all-bulls guess finishes the game with the guesser as winner
   * and schedules the room's deletion; any other guess passes unchanged.
   */
  lemma WinCheckOutcome(st: Room, roomId: RoomId, sid: SocketId, now: int, s: Outcome)
    requires st.secret.Some? && st.startTime.Some? && sid in Ids(st.players) && s.reply.GuessReply?
    requires Occupied(s.state) && s.state.status == Playing && s.state.secret.Some?
    ensures Occupied(WinCheck(st, roomId, sid, now, s).state) && WinCheck(st, roomId, sid, now, s).reply == s.reply
    ensures WinCheck(st, roomId, sid, now, s).state.(status := Playing, winner := s.state.winner) == s.state
    ensures s.reply.result.bulls != st.digitLength ==> WinCheck(st, roomId, sid, now, s) == s
    ensures s.reply.result.bulls == st.digitLength ==>
      var o := WinCheck(st, roomId, sid, now, s);
      && o.state.status == Finished
      && o.state.winner == Some(Winner(sid, FindPlayer(st.players, sid).value.username, s.reply.guessNumber,
                                       RoundedSeconds(now - st.startTime.value)))
      && o.timer == Some(Timer(AutoDeleteMs, RemoveRoom(roomId)))
  {
    if s.reply.result.bulls == st.digitLength {
      var w := Winner(sid, FindPlayer(st.players, sid).value.username, s.reply.guessNumber,
                      RoundedSeconds(now - st.startTime.value));
      ScoreKeepsRoom(s.state, sid, s.reply.result, w);
    }
  }

  /**
   * An accepted guess keeps a registered room's invariant, is appended to
   * the player's guesses and scored results, and finishes the game, with
   * the guesser as winner and the auto-delete scheduled, exactly when it is
   * the secret.
   */
  lemma AcceptedGuess(st: Room, roomId: RoomId, sid: SocketId, g: string, now: int)
    requires Occupied(st) && GuessRefusal(st, sid, Some(g), now).None? && st.secret.Some?
    ensures st.startTime.Some? && sid in Ids(st.players)
    ensures var o := Accepted(st, roomId, sid, g, now);
      && Occupied(o.state)
      && o.state.id == st.id && o.state.players == st.players && o.state.hostId == st.hostId && o.state.secret == st.secret
      && o.state.guesses[sid] == GuessesOf(st, sid) + [g] && o.state.lastGuessTime[sid] == now
      && o.reply.GuessReply?
      && o.reply.result.guess == g
      && o.state.guessResults[sid] == ResultsOf(st.guessResults, sid) + [o.reply.result]
      && o.reply.guessNumber == |o.state.guessResults[sid]|
      && (o.state.status == Finished <==> g == st.secret.value)
      && (o.timer.Some? <==> g == st.secret.value)
      && (g == st.secret.value ==>
            && o.state.winner.Some? && o.state.winner.value.id == sid
            && o.state.winner.value.attempts == o.reply.guessNumber
            && o.state.winner.value.username == FindPlayer(st.players, sid).value.username
            && o.state.winner.value.time == RoundedSeconds(now - st.startTime.value)
            && o.timer == Some(Timer(AutoDeleteMs, RemoveRoom(roomId))))
      && (g != st.secret.value ==> o.state.status == Playing && o.state.winner == st.winner)
  {
    ScoredGuess(st, roomId, sid, g, now);
    WinCheckOutcome(st, roomId, sid, now, Scoring(st, roomId, sid, g, now));
  }

  /**
   * Right after a win, the next guess on the room as the win left it, by
   * anyone and at any time, is refused as the game is no longer active,
   * and leaves the room, and its winner, as they are. A stale countdown
   * can reopen the game (StaleCountdownReopensWin).
   */
  lemma WinIsFinal(st: Room, roomId: RoomId, sid: SocketId, g: string, now: int,
                   other: SocketId, guess: Option<string>, later: int, o: Outcome)
    requires Occupied(st) && GuessRefusal(st, sid, Some(g), now).None? && st.secret.Some? && g == st.secret.value
    requires st.startTime.Some? && sid in Ids(st.players)
    requires GuessHandled(Accepted(st, roomId, sid, g, now).state, roomId, other, guess, later, o)
    ensures o.reply == Failure("Game is not active.") && o.events == [] && o.timer.None?
    ensures o.state == Accepted(st, roomId, sid, g, now).state && o.state.winner.Some? && o.state.winner.value.id == sid
  {
    AcceptedGuess(st, roomId, sid, g, now);
  }

  /**
   * The room a winning guess leaves: finished, with the guesser as winner;
   * only the winner's guesses and rate-limit time differ from before.
   */
  lemma WonRoom(st: Room, roomId: RoomId, p: SocketId, s: string, now: int)
    requires Occupied(st) && st.secret == Some(s) && GuessRefusal(st, p, Some(s), now).None?
    ensures Occupied(Accepted(st, roomId, p, s, now).state)
    ensures Accepted(st, roomId, p, s, now).state.status == Finished
    ensures Accepted(st, roomId, p, s, now).state.winner.Some?
    ensures Accepted(st, roomId, p, s, now).state.winner.value.id == p
    ensures Accepted(st, roomId, p, s, now).state.secret == Some(s)
    ensures Accepted(st, roomId, p, s, now).state.players == st.players
    ensures Accepted(st, roomId, p, s, now).state.lastGuessTime == st.lastGuessTime[p := now]
    ensures Accepted(st, roomId, p, s, now).state.guesses == st.guesses[p := GuessesOf(st, p) + [s]]
  {
    AcceptedGuess(st, roomId, p, s, now);
    ScoredGuess(st, roomId, p, s, now);
    RecordedScore(Guessed(st, p, s, now), roomId, p, s);
    WinCheckOutcome(st, roomId, p, now, Scoring(st, roomId, p, s, now));
  }

  /**
   * A countdown timer that fires on a finished room (one left pending by a
   * restart) puts it back into play with its winner kept; another player's
   * guess of the secret then passes every check, and that player replaces
   * the winner, with a second `gameWon` and a second deletion timer.
   */
  lemma StaleCountdownReopens(won: Room, roomId: RoomId, q: SocketId, s: string, t: int, later: int)
    requires Occupied(won) && won.status == Finished && won.secret == Some(s) && won.winner.Some?
    requires q in Ids(won.players) && q != won.winner.value.id
    requires s !in GuessesOf(won, q) && later - LastGuessAt(won, q) >= RateLimitMs
    ensures Occupied(Elapsed(won, t)) && Elapsed(won, t).status == Playing && Elapsed(won, t).winner == won.winner
    ensures GuessRefusal(Elapsed(won, t), q, Some(s), later).None?
    ensures Elapsed(won, t).startTime.Some?
    ensures Accepted(Elapsed(won, t), roomId, q, s, later).state.winner.Some?
    ensures Accepted(Elapsed(won, t), roomId, q, s, later).state.winner.value.id == q
    ensures Accepted(Elapsed(won, t), roomId, q, s, later).timer == Some(Timer(AutoDeleteMs, RemoveRoom(roomId)))
  {
    var reopened := Elapsed(won, t);
    ElapsedKeepsRoom(won, t);
    assert WellFormedGuess(s, won.digitLength);
    assert ValidateGuess(Some(s), reopened.digitLength, GuessesOf(reopened, q)) == Valid;
    AcceptedGuess(reopened, roomId, q, s, later);
  }

  /**
   * A stale countdown admits a second winner: p wins with the secret, the
   * timer reopens the game, and q, who had not guessed it, wins too.
   */
  lemma StaleCountdownReopensWin(st: Room, roomId: RoomId, p: SocketId, q: SocketId, s: string,
                                 now: int, t: int, later: int)
    requires Occupied(st) && st.secret == Some(s) && GuessRefusal(st, p, Some(s), now).None?
    requires q in Ids(st.players) && q != p
    requires s !in GuessesOf(st, q) && later - LastGuessAt(st, q) >= RateLimitMs
    ensures Accepted(st, roomId, p, s, now).state.winner.Some?
    ensures Accepted(st, roomId, p, s, now).state.winner.value.id == p
    ensures GuessRefusal(Elapsed(Accepted(st, roomId, p, s, now).state, t), q, Some(s), later).None?
    ensures Accepted(Elapsed(Accepted(st, roomId, p, s, now).state, t), roomId, q, s, later).state.winner.Some?
    ensures Accepted(Elapsed(Accepted(st, roomId, p, s, now).state, t), roomId, q, s, later).state.winner.value.id == q
  {
    WonRoom(st, roomId, p, s, now);
    var won := Accepted(st, roomId, p, s, now).state;
    assert GuessesOf(won, q) == GuessesOf(st, q) && LastGuessAt(won, q) == LastGuessAt(st, q);
    StaleCountdownReopens(won, roomId, q, s, t, later);
  }

  /** `calculateBullsCows` on the recorded guess, and the result appended to the player's results. */
  method RecordResult(room: Room, sid: SocketId, g: string) returns (r: Room, entry: GuessEntry)
    requires room.secret.Some?
    ensures entry == GuessEntry(g, Bulls(room.secret.value, g), Cows(room.secret.value, g))
    ensures r == Scored(room, sid, entry)
  {
    var bulls, cows := CalculateBullsCows(room.secret.value, g);
    entry := GuessEntry(g, bulls, cows);
    var playerResults := if sid in room.guessResults then room.guessResults[sid] else [];
    playerResults := playerResults + [entry];
    r := room.(guessResults := room.guessResults[sid := playerResults]);
  }

  /** The scoring half of `submitGuess`, on a room whose guess is already recorded. */
  method ScoreGuess(room: Room, roomId: RoomId, sid: SocketId, g: string)
    returns (o: Outcome)
    requires room.secret.Some? && sid in Ids(room.players)
    ensures o == ScoreRecorded(room, roomId, sid, g)
  {
    var r, entry := RecordResult(room, sid, g);
    var count := |r.guessResults[sid]|;
    var player := FindPlayer(r.players, sid).value;
    var views := GetSerializablePlayers(r);
    var leaderboard := Sort(views);
    o := Outcome(r, GuessReply(entry, count),
                 [PlayerGuessed(roomId, sid, player.username, count, entry.bulls, entry.cows), LeaderboardUpdate(roomId, leaderboard)],
                 None);
    assert o.events == GuessBroadcast(r, roomId, sid, entry, count);
  }

  /** The win check of `submitGuess`, on the room's fields that scoring leaves as they were. */
  method DeclareWinner(room: Room, ghost st: Room, roomId: RoomId, sid: SocketId, now: int, scored: Outcome)
    returns (o: Outcome)
    requires st.secret.Some? && st.startTime.Some? && sid in Ids(st.players) && scored.reply.GuessReply?
    requires room.players == st.players && room.digitLength == st.digitLength
    requires room.startTime == st.startTime && room.secret == st.secret
    ensures o == WinCheck(st, roomId, sid, now, scored)
  {
    o := scored;
    if o.reply.result.bulls == room.digitLength {
      var player := FindPlayer(room.players, sid).value;
      var timeTaken := RoundedSeconds(now - room.startTime.value);
      var winner := Winner(sid, player.username, o.reply.guessNumber, timeTaken);
      var r := o.state.(status := Finished, winner := Some(winner));
      o := Outcome(r, o.reply, o.events + [GameWon(roomId, winner, room.secret.value)],
                   Some(Timer(AutoDeleteMs, RemoveRoom(roomId))));
    }
  }

  /** `submitGuess` for an accepted guess: scoring, then the win check. */
  method AcceptGuess(room: Room, ghost st: Room, roomId: RoomId, sid: SocketId, g: string, now: int)
    returns (o: Outcome)
    requires st.secret.Some? && st.startTime.Some? && sid in Ids(st.players)
    requires room == Guessed(st, sid, g, now)
    ensures o == Accepted(st, roomId, sid, g, now)
  {
    var scored := ScoreGuess(room, roomId, sid, g);
    o := DeclareWinner(room, st, roomId, sid, now, scored);
  }

  /**
   * What `submitGuess` does to the room it names, in state `st`: a guess
   * failing a check is refused with the room unchanged; otherwise it is
   * recorded, and scored as `Accepted` says when the room has a secret (a
   * playing room without one makes the handler throw once it is recorded).
   */
  predicate GuessHandled(st: Room, roomId: RoomId, sid: SocketId, guess: Option<string>, now: int, o: Outcome) {
    var refusal := GuessRefusal(st, sid, guess, now);
    && (refusal.Some? ==> o == Outcome(st, Failure(refusal.value), [], None))
    && (refusal.None? && st.secret.None? ==>
          guess.Some? && o == Outcome(Guessed(st, sid, guess.value, now), Crashed, [], None))
    && (refusal.None? && st.secret.Some? ==>
          guess.Some? && sid in Ids(st.players) && st.startTime.Some? &&
          o == Accepted(st, roomId, sid, guess.value, now))
  }

  /**
   * `submitGuess` on the room it names: refuses a guess that fails a
   * check; otherwise records it, and scores it as `Accepted` says when the
   * room has a secret (a playing room without one makes the handler throw).
   */
  method SubmitToRoom(room: Room, roomId: RoomId, sid: SocketId, guess: Option<string>, now: int)
    returns (o: Outcome)
    requires PhaseOk(room)
    ensures GuessHandled(room, roomId, sid, guess, now, o)
  {
    if room.status != Playing {
      return Outcome(room, Failure("Game is not active."), [], None);
    }
    if FindPlayer(room.players, sid).None? {
      return Outcome(room, Failure("You are not in this room."), [], None);
    }
    var lastGuess := if sid in room.lastGuessTime then room.lastGuessTime[sid] else 0;
    if now - lastGuess < RateLimitMs {
      return Outcome(room, Failure("Too fast! Wait a moment between guesses."), [], None);
    }
    var playerGuesses := if sid in room.guesses then room.guesses[sid] else [];
    var validation := ValidateGuess(guess, room.digitLength, playerGuesses);
    if validation.Invalid? {
      return Outcome(room, Failure(Reason(validation.error)), [], None);
    }
    var g := guess.value;
    var r := room.(lastGuessTime := room.lastGuessTime[sid := now]);
    r := r.(guesses := r.guesses[sid := playerGuesses + [g]]);
    if r.secret.None? {
      return Outcome(r, Crashed, [], None);
    }
    o := AcceptGuess(r, room, roomId, sid, g, now);
  }

  /** `submitGuess`: the room is looked up, then the guess handled as `SubmitToRoom` says. */
  method OnSubmitGuess(reg: Registry, sid: SocketId, roomId: RoomId, guess: Option<string>, now: int)
    returns (reply: Reply, events: seq<Event>, timer: Option<Timer>)
    requires Consistent(reg)
    modifies reg
    ensures Consistent(reg) && reg.order == old(reg.order)
    ensures roomId !in old(reg.rooms) ==>
      reply == Failure("Room not found.") && events == [] && timer.None? && reg.rooms == old(reg.rooms)
    ensures roomId in old(reg.rooms) ==>
      && roomId in reg.rooms && reg.rooms == old(reg.rooms)[roomId := reg.rooms[roomId]]
      && GuessHandled(old(reg.rooms[roomId]), roomId, sid, guess, now, Outcome(reg.rooms[roomId], reply, events, timer))
  {
    var found := reg.GetRoom(roomId);
    if found.None? {
      return Failure("Room not found."), [], None;
    }
    var room := found.value;
    var o := SubmitToRoom(room, roomId, sid, guess, now);
    ghost var refusal := GuessRefusal(room, sid, guess, now);
    if refusal.None? {
      GuessKeepsRoom(room, sid, guess.value, now);
      if room.secret.Some? {
        AcceptedGuess(room, roomId, sid, guess.value, now);
      }
    }
    WriteBack(reg, roomId, o.state);
    reply, events, timer := o.reply, o.events, o.timer;
  }

  /** The auto-delete timer's body: the room is unregistered, if it still is. */
  method AutoDelete(reg: Registry, task: Task)
    requires Consistent(reg) && task.RemoveRoom?
    modifies reg
    ensures Consistent(reg)
    ensures reg.rooms == old(reg.rooms) - {task.roomId} && reg.order == Without(old(reg.order), task.roomId)
  {
    reg.DeleteRoom(task.roomId);
  }

  /** `restartGame`: the host puts the room back to waiting, in any phase. */
  method OnRestartGame(reg: Registry, sid: SocketId, roomId: RoomId) returns (reply: Reply, events: seq<Event>)
    requires Consistent(reg)
    modifies reg
    ensures Consistent(reg) && reg.order == old(reg.order)
    ensures roomId !in old(reg.rooms) ==> reply == Failure("Room not found.") && events == [] && reg.rooms == old(reg.rooms)
    ensures roomId in old(reg.rooms) ==>
      var st := old(reg.rooms[roomId]);
      && (st.hostId != sid ==> reply == Failure("Only the host can restart.") && events == [] && reg.rooms == old(reg.rooms))
      && (st.hostId == sid ==>
            && reg.rooms == old(reg.rooms)[roomId := Restarted(st)] && reply == Success
            && events == [GameRestarted(roomId, GetSerializableRoom(Restarted(st)))])
  {
    var found := reg.GetRoom(roomId);
    if found.None? {
      return Failure("Room not found."), [];
    }
    var room := found.value;
    if room.hostId != sid {
      return Failure("Only the host can restart."), [];
    }
    RestartKeepsRoom(room);
    room := room.(status := Waiting, secret := None, startTime := None, winner := None,
                  guesses := map[], guessResults := map[], lastGuessTime := map[]);
    WriteBack(reg, roomId, room);
    events := [GameRestarted(roomId, GetSerializableRoom(room))];
    reply := Success;
  }

  /** The push and the `slice(-100)` of `chatMessage`. */
  method PushMessage(room: Room, m: Message) returns (r: Room)
    ensures r == Chatted(room, m)
  {
    r := room.(messages := room.messages + [m]);
    if |r.messages| > MaxMessages {
      r := r.(messages := r.messages[|r.messages| - MaxMessages..]);
    }
  }

  /** `chatMessage`: a member's trimmed message of 1 to 200 characters joins the log, which keeps the newest 100. */
  method OnChatMessage(reg: Registry, sid: SocketId, roomId: RoomId, text: Option<string>, now: int)
    returns (events: seq<Event>)
    requires Consistent(reg)
    modifies reg
    ensures Consistent(reg) && reg.order == old(reg.order)
    ensures roomId !in old(reg.rooms) ==> events == [] && reg.rooms == old(reg.rooms)
    ensures roomId in old(reg.rooms) ==>
      var st := old(reg.rooms[roomId]);
      && (sid !in Ids(st.players) || ChatText(text).None? ==> events == [] && reg.rooms == old(reg.rooms))
      && (sid in Ids(st.players) && ChatText(text).Some? ==>
            var m := Message(FindPlayer(st.players, sid).value.username, ChatText(text).value, now);
            reg.rooms == old(reg.rooms)[roomId := Chatted(st, m)] && events == [ChatMessage(roomId, m)])
  {
    var found := reg.GetRoom(roomId);
    if found.None? {
      return [];
    }
    var room := found.value;
    if FindPlayer(room.players, sid).None? {
      return [];
    }
    var t := ChatText(text);
    if t.None? {
      return [];
    }
    var player := FindPlayer(room.players, sid).value;
    var message := Message(player.username, t.value, now);
    ChatKeepsRoom(room, message);
    room := PushMessage(room, message);
    WriteBack(reg, roomId, room);
    events := [ChatMessage(roomId, message)];
  }

  /**
   * `disconnect`: the socket leaves its room; when others remain they hear
   * of a new host, if the host left, and of the departure.
   */
  method OnDisconnect(reg: Registry, sid: SocketId) returns (events: seq<Event>)
    requires Consistent(reg)
    modifies reg
    ensures Consistent(reg)
    ensures !Seated(reg.rooms, sid)
    ensures !old(Seated(reg.rooms, sid)) ==> events == [] && reg.rooms == old(reg.rooms) && reg.order == old(reg.order)
    ensures old(Seated(reg.rooms, sid)) ==>
      var id := old(SeatOf(reg.rooms, sid));
      var st := old(reg.rooms[id]);
      var t := AfterLeave(st, sid);
      && (t.players == [] ==>
            reg.rooms == old(reg.rooms) - {id} && reg.order == Without(old(reg.order), id) && events == [])
      && (t.players != [] ==>
            && reg.rooms == old(reg.rooms)[id := t] && reg.order == old(reg.order)
            && events == (if sid == st.hostId && t.hostId != "" then
                            [HostChanged(id, t.hostId, NameOrUnknown(t.players, t.hostId))] else [])
                          + [PlayerLeft(id, sid, NameOrUnknown(st.players, sid),
                                        PlayerViews(t.players, t.hostId, t.guessResults))])
  {
    var found := reg.FindRoomBySocket(sid);
    if found.None? {
      return [];
    }
    var roomId := found.value;
    var room := reg.GetRoom(roomId).value;
    assert roomId == SeatOf(reg.rooms, sid);
    var username := NameOrUnknown(room.players, sid);
    ghost var before := reg.rooms;
    LeaveKeepsHost(room, sid);
    var res := reg.RemovePlayer(roomId, sid);
    ghost var t := AfterLeave(room, sid);
    DeleteKeepsIds(room.players, sid);
    if res.Deleted? {
      assert OnePerSocket(reg.rooms) by {
        forall a, b, x | a in reg.rooms && b in reg.rooms && x in Ids(reg.rooms[a].players) && x in Ids(reg.rooms[b].players)
          ensures a == b
        {
          assert a in before && b in before;
        }
      }
      assert !Seated(reg.rooms, sid) by {
        forall id | id in reg.rooms ensures sid !in Ids(reg.rooms[id].players) {
          assert id in before && id != roomId;
        }
      }
      return [];
    }
    OnePerSocketAfterShrink(before, roomId, t);
    assert !Seated(reg.rooms, sid) by {
      forall id | id in reg.rooms ensures sid !in Ids(reg.rooms[id].players) {
        if id != roomId {
          assert id in before;
        }
      }
    }
    room := res.room;
    events := [];
    if res.NewHost? && res.newHostId != "" {
      events := [HostChanged(roomId, res.newHostId, NameOrUnknown(room.players, res.newHostId))];
    }
    var players := GetSerializablePlayers(room);
    events := events + [PlayerLeft(roomId, sid, username, players)];
  }
}
