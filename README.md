# Bulls & Cows game server, modelled in Dafny

This project models the authoritative backend of a multiplayer Bulls & Cows
game. Players meet in rooms of up to 16. The host picks a digit length of 3
to 6 and starts a game, and the server draws a secret with distinct digits
that never starts with 0. Players then guess: each guess is scored in bulls
(right digit, right place) and cows (right digit, wrong place), a rate limit
allows one guess per second per player, and the first guess that is all
bulls wins (a countdown left pending by a restart can reopen a won game,
see "Left out"). The model covers three parts of the backend.

- `game_logic.dfy` (module `GameLogic`): secret generation, bulls and cows
  scoring, and guess validation with its fixed order of checks.
  `GenerateSecret` and `CalculateBullsCows` keep the source's loops.
- `room_manager.dfy` (module `RoomManager`): the in-memory registry of
  rooms.
  - `Registry` is a class whose `rooms` map and key `order` its methods
    reassign.
  - A room is a `Room` value in that map, and its `players` list keeps the
    insertion order of the JavaScript `Map`.
  - The module has create, lookup and join (with its refusals), and leave
    (with host hand-over and deletion of the emptied room).
  - It also has the lobby listing, the per-player leaderboard projection
    and the search for the room that holds a socket.
- `leaderboard.dfy` (module `Leaderboard`): the leaderboard sort. It orders
  players by best bulls (most first), then by guess count (fewest first).
  The sort is stable, so players who tie keep their membership order.
- `socket_handler.dfy` (module `SocketHandler`): one method per socket
  event.
  - What a handler passes to its callback is its `Reply`. What it
    broadcasts is a list of `Event`s. A `setTimeout` it schedules is a
    returned `Timer`, whose body is a method of its own: `CountdownElapsed`
    and `AutoDelete`.
  - A handler that updates the room it looked up computes the room's new
    value and files it back under the room's id.
  - Every handler keeps `Consistent`:
    - every registered room has a player and has its host among them;
    - the registry has no room under the empty id;
    - no socket is a player of two rooms;
    - no player has the same guess twice;
    - the chat holds at most 100 messages;
    - the phase facts of `waiting → countdown → playing → finished → waiting`
      hold.
- `js.dfy` (modules `Wrappers` and `Js`): the JavaScript built-ins the
  backend relies on. These are `trim`, `length` in UTF-16 code units,
  ASCII `toUpperCase`/`toLowerCase`, and number formatting.

Some inputs are parameters:
- the clock (`now`);
- the string `uuidv4()` returns (`uuid`);
- the pool indices `Math.random()` selects (`picks`).

## Model

| member | source | states |
|---|---|---|
| Js.Trim | backend/socketHandler.js:25-28 | `trim` keeps neither leading nor trailing whitespace, and yields the empty string exactly when the input is all whitespace |
| Js.TrimStartStops | backend/socketHandler.js:25 | what the leading trim removes is whitespace, and what it keeps does not start with whitespace |
| Js.TrimEndStops | backend/socketHandler.js:25 | what the trailing trim removes is whitespace, and what it keeps does not end with whitespace |
| Js.TrimIsSlice | backend/socketHandler.js:25-28 | `trim` keeps a contiguous slice of the input, and everything cut off before and after it is whitespace |
| Js.JsLength | backend/socketHandler.js:28 | `length` counts UTF-16 code units: one per character, two for a character beyond U+FFFF |
| Js.JsLengthConcat | backend/socketHandler.js:28 | `length` adds up over concatenation, and a single character counts 2 exactly when it lies beyond U+FFFF |
| Js.ToUpper | backend/roomManager.js:29 | upper-casing maps each character and keeps the length |
| Js.ToLower | backend/roomManager.js:84 | lower-casing maps each character and keeps the length |
| Js.NatToString | backend/gameLogic.js:58 | a number prints as a non-empty string of decimal digits |
| Js.NatToStringReadsBack | backend/gameLogic.js:58 | the printed digits read back as the number, with no leading zero except for 0 itself |
| Js.ElementsSize | backend/gameLogic.js:65-66 | a `Set` built from a string has as many elements as the string has characters exactly when no character repeats |
| Js.RemoveAt | backend/gameLogic.js:14 | `splice(idx, 1)` removes exactly the entry at `idx` |
| Js.RemoveAtDistinct | backend/gameLogic.js:20 | splicing keeps a list of distinct digits distinct and no longer holds the removed digit |
| GameLogic.FirstDraw | backend/gameLogic.js:10-17 | the first digit, drawn from 1-9, is not 0, and the pool left for the rest is 0 plus the other eight digits |
| GameLogic.Draw | backend/gameLogic.js:18-21 | each later draw takes a digit not yet used and removes it from the pool |
| GameLogic.GenerateSecret | backend/gameLogic.js:8-24 | the secret has exactly `digitLength` digits, all distinct, the first not 0 and the one the first pick selects from 1-9 |
| GameLogic.CalculateBullsCows | backend/gameLogic.js:29-42 | the loop counts a bull at each position where guess and secret agree and otherwise a cow when the guess's digit occurs in the secret; bulls plus cows is at most the secret's length |
| GameLogic.BullsExactlyWhenEqual | backend/gameLogic.js:29-42 | for a guess as long as the secret, every position is a bull exactly when the guess is the secret |
| GameLogic.BullsPlusCowsAreSharedDigits | backend/gameLogic.js:33-39 | for a guess with distinct digits, bulls plus cows is the number of the guess's digits that occur in the secret |
| GameLogic.ScoreBound | backend/gameLogic.js:33-39 | after k positions, bulls plus cows is at most k |
| GameLogic.AllBullsUpTo | backend/gameLogic.js:33-35 | after k positions, bulls reach k exactly when each of those positions is a bull |
| GameLogic.WorkedExamples | backend/gameLogic.js:29-42 | secret 5271 scores guess 1234 as 1 bull and 1 cow, and guess 5271 as 4 bulls and 0 cows |
| GameLogic.ValidateGuess | backend/gameLogic.js:52-75 | a guess is accepted exactly when it is a non-empty string of `digitLength` distinct ASCII digits not guessed before; otherwise the first failing check, in source order, gives the reason |
| RoomManager.FindPlayer | backend/roomManager.js:69 | `players.get(id)` finds a player with that id exactly when the id is a key |
| RoomManager.SetPlayer | backend/roomManager.js:89-93 | `players.set` stores the player and no one new besides |
| RoomManager.SetPlayerIds | backend/roomManager.js:89-93 | a new key goes last; an existing key keeps the key order |
| RoomManager.SetPlayerKeeps | backend/roomManager.js:89-93 | setting a player keeps every key, adds the new one, keeps keys unique and adds at most one entry |
| RoomManager.Without | backend/roomManager.js:102 | deleting a key keeps exactly the other keys, takes one entry out of a list without repetition, and an absent key changes nothing |
| RoomManager.WithoutRemovesAt | backend/roomManager.js:102 | on a list without repetition, deleting a key removes exactly the entry at its position and keeps the others in order |
| RoomManager.DeletePlayer | backend/roomManager.js:102 | `players.delete` removes exactly the players with that id |
| RoomManager.DeletePlayerIds | backend/roomManager.js:102 | the key order after the delete is the old order without that key |
| RoomManager.DeleteKeepsIds | backend/roomManager.js:102 | the delete keeps the other keys, and keeps them unique |
| RoomManager.FirstRemaining | backend/roomManager.js:115 | the first key after the delete is the old first key, or the second one when the first was deleted |
| RoomManager.MaxBulls | backend/roomManager.js:135 | best bulls is the largest bulls among the results, 0 for none |
| RoomManager.PlayerViews | backend/roomManager.js:127-139 | one entry per player, in membership order, with its guess count, best bulls and host flag |
| RoomManager.OneHostView | backend/roomManager.js:133 | exactly one entry is flagged as host when the host is a player |
| RoomManager.NameOrUnknown | backend/roomManager.js:69 | `players.get(id)?.username \|\| 'Unknown'`: the player's name, or `Unknown` when there is no such player or the name is empty |
| RoomManager.AfterLeave | backend/roomManager.js:98-121 | removing a socket drops exactly its player, guesses, results and rate-limit time, keeps the host unless the host left, and otherwise makes the first remaining player host |
| RoomManager.LeaveKeepsHost | backend/roomManager.js:108-118 | after a leave the room still keeps the room invariant, the socket is gone, and a room with players left has its host among them |
| RoomManager.NewRoom | backend/roomManager.js:28-51 | a new room is waiting with digit length 4; it has no secret, start time or winner, empty guess maps and chat, and the caller as its only player and host |
| RoomManager.JoinKeepsRoom | backend/roomManager.js:80-95 | a join below the cap keeps the room invariant, appends exactly the new player, and adds no other key |
| RoomManager.UsernameTaken | backend/roomManager.js:83-87 | the duplicate-name loop finds a player whose name matches ignoring case exactly when there is one |
| RoomManager.GetSerializablePlayers | backend/roomManager.js:127-139 | the loop builds exactly the player views |
| RoomManager.GetSerializableRoom | backend/roomManager.js:141-151 | the room view carries the room's id, host, status, digit length, start time and winner as they are, and exactly the player views of the room's players in order, each with its id and whether it is the host |
| RoomManager.RoomIdOf | backend/roomManager.js:29 | a room id has six characters (fewer only for a shorter uuid) and no lower-case letter, so upper-casing it again, as `joinRoom` does, changes nothing |
| RoomManager.OrderAfterSet | backend/roomManager.js:52 | `Map.set` keeps the key order a listing of every key once |
| RoomManager.OrderAfterDelete | backend/roomManager.js:109 | `Map.delete` keeps the key order a listing of every key once |
| RoomManager.FiledAfterSet | backend/roomManager.js:52 | filing a well-formed room under its own id keeps every registered room well-formed |
| RoomManager.FiledAfterDelete | backend/roomManager.js:109 | removing a room keeps the others well-formed |
| RoomManager.OnePerSocketAfterSet | backend/socketHandler.js:33-36 | refiling a room whose players are in no other room keeps one room per socket |
| RoomManager.OnePerSocketAfterShrink | backend/roomManager.js:102 | a room that only keeps or loses players keeps one room per socket |
| RoomManager.OnePerSocketAfterJoin | backend/socketHandler.js:56-61 | a room that gains only a socket that was in no room keeps one room per socket, and the socket is then in a room exactly when it was added |
| RoomManager.Registry.constructor | backend/roomManager.js:7 | the registry starts empty |
| RoomManager.Registry.CreateRoom | backend/roomManager.js:28-54 | the new room is filed under its id; a new id goes last in the order, and an existing one is replaced in place |
| RoomManager.Registry.Set | backend/roomManager.js:52 | `rooms.set` files the room and keeps the registry invariant and the key order |
| RoomManager.Registry.GetRoom | backend/roomManager.js:56-58 | `getRoom` finds the room exactly when the id is registered, and the room found keeps the registered-room invariant |
| RoomManager.Registry.ListingMembers | backend/roomManager.js:60-74 | the lobby lists exactly the waiting rooms among the ids given, each with its summary |
| RoomManager.Registry.GetAllPublicRooms | backend/roomManager.js:60-74 | the loop lists exactly the waiting rooms, in registry order, each with its player count, cap 16, digit length and host name |
| RoomManager.Registry.JoinRoom | backend/roomManager.js:76-96 | the first applicable refusal among missing room, not waiting, 16 players and a name taken in any case leaves the registry unchanged; otherwise the player is set in the room |
| RoomManager.Registry.RemovePlayer | backend/roomManager.js:98-121 | a missing room gives null; a room left empty is deleted; otherwise the room is refiled as the leave leaves it, and the host's departure reports the new host |
| RoomManager.Registry.DeleteRoom | backend/roomManager.js:123-125 | the room is gone afterwards, and deleting a missing id changes nothing, so deleting twice is deleting once |
| RoomManager.Registry.FindRoomBySocket | backend/roomManager.js:154-161 | null exactly when no room has the socket; otherwise the first room in registry order that has it |
| Leaderboard.InsertRanked | backend/socketHandler.js:184-187 | inserting into a ranked list keeps it ranked and adds exactly the entry |
| Leaderboard.SortRanked | backend/socketHandler.js:184-187 | the sorted leaderboard is ranked and is a permutation of the players |
| Leaderboard.InsertKeepsTies | backend/socketHandler.js:184-187 | inserting an entry after every entry it ties with keeps the tied entries in order |
| Leaderboard.SortKeepsTies | backend/socketHandler.js:184-187 | the sort is stable: entries that tie keep their membership order |
| Leaderboard.LeaderboardOrder | backend/socketHandler.js:184-187 | the leaderboard is a permutation ordered by best bulls descending, then guess count ascending, with ties in membership order |
| SocketHandler.UsernameError | backend/socketHandler.js:25-30 | a missing or blank username is refused as required, a trimmed name over 20 characters as too long, and any other name is accepted |
| SocketHandler.ChatText | backend/socketHandler.js:240-245 | a message is kept exactly when its trimmed text has 1 to 200 characters, and then it is the trimmed text |
| SocketHandler.RoundedSeconds | backend/socketHandler.js:192 | the result is the nearest whole number of seconds, with a half rounded up |
| SocketHandler.Capped | backend/socketHandler.js:250-253 | the log is at most 100 long, and is the newest messages in order |
| SocketHandler.StartKeepsRoom | backend/socketHandler.js:106-114 | starting keeps the room invariant and gives every current player empty guesses and results |
| SocketHandler.ElapsedKeepsRoom | backend/socketHandler.js:120-122 | the countdown's end keeps the room invariant, whatever the room's phase by then |
| SocketHandler.GuessKeepsRoom | backend/socketHandler.js:147-156 | a guess that passed the checks is well formed and new for the player, so recording it keeps guesses unrepeated |
| SocketHandler.WinExactlyOnSecret | backend/socketHandler.js:191 | a checked guess wins exactly when it is the secret |
| SocketHandler.ScoreKeepsRoom | backend/socketHandler.js:162-164 | recording a result and finishing a playing game keep the room invariant |
| SocketHandler.RestartKeepsRoom | backend/socketHandler.js:217-229 | a restart keeps the room invariant, the players, the host, the digit length and the chat, whatever the phase |
| SocketHandler.ChatKeepsRoom | backend/socketHandler.js:248-253 | a chat message keeps the room invariant and is the newest one in the log |
| SocketHandler.OnCreateRoom | backend/socketHandler.js:24-42 | a bad username, or a socket already in a room, is refused with the registry unchanged; otherwise the new room is filed, the caller is in it, and the reply is its view |
| SocketHandler.JoinUnseated | backend/socketHandler.js:61-76 | for a socket in no room: the registry's refusals change nothing; a join appends the caller, replies with the room and tells the others |
| SocketHandler.OnJoinRoom | backend/socketHandler.js:45-77 | the username, the missing room id and the one-room rule are checked in that order, and the id is upper-cased before the join |
| SocketHandler.OnSetDigitLength | backend/socketHandler.js:85-95 | only the host of an existing waiting room can set the digit length, only to 3, 4, 5 or 6; a refusal changes nothing |
| SocketHandler.BeginCountdown | backend/socketHandler.js:106-114 | the secret and countdown are set, and the loop gives each player empty guesses and results |
| SocketHandler.OnStartGame | backend/socketHandler.js:98-130 | only the host of a waiting room with two or more players starts it: a drawn secret of the digit length, the countdown, and the timer that ends it |
| SocketHandler.CountdownElapsed | backend/socketHandler.js:120-127 | the room starts playing at `now` and the start is broadcast |
| SocketHandler.RecordedScore | backend/socketHandler.js:158-164 | scoring a recorded guess keeps the room invariant and changes nothing but the results |
| SocketHandler.RecordedReply | backend/socketHandler.js:158-172 | the reply carries the guess's bulls and cows and numbers it by the player's results, which now end with it |
| SocketHandler.WinCheckOutcome | backend/socketHandler.js:191-212 | the win check changes only the phase and the winner and keeps the reply; an all-bulls guess finishes the game with the guesser as winner and schedules the deletion; any other guess passes through unchanged |
| SocketHandler.ScoredGuess | backend/socketHandler.js:153-188 | scoring appends exactly one guess and one result for the caller and sets their rate-limit time to now; the guess number is the result count; all bulls exactly when the guess is the secret |
| SocketHandler.AcceptedGuess | backend/socketHandler.js:153-212 | an accepted guess finishes the game exactly when it is the secret; then the winner is the caller, with attempts as their result count, their name, and the rounded time, and the room's deletion is scheduled; otherwise play goes on |
| SocketHandler.WinIsFinal | backend/socketHandler.js:136 | right after a win, the next guess on the room as the win left it, by anyone at any time, is refused as the game is not active and leaves the room and its winner as they are |
| SocketHandler.WonRoom | backend/socketHandler.js:153-206 | a guess of the secret that passes the checks finishes the game with the guesser as winner, records the guess and the time, and keeps the players and the secret |
| SocketHandler.StaleCountdownReopens | backend/socketHandler.js:120-206 | a countdown firing on a won room sets it playing again with the winner kept, and then another player's guess of the secret passes every check and replaces the winner |
| SocketHandler.StaleCountdownReopensWin | backend/socketHandler.js:98-233 | a win followed by a countdown left pending by a restart lets a second player also win the same game |
| SocketHandler.RecordResult | backend/socketHandler.js:158-164 | the loop's bulls and cows are those of the guess against the secret, and the entry is appended to the player's results |
| SocketHandler.ScoreGuess | backend/socketHandler.js:158-188 | the scoring code computes exactly the scoring outcome |
| SocketHandler.DeclareWinner | backend/socketHandler.js:191-212 | the win-check code computes exactly the win check |
| SocketHandler.AcceptGuess | backend/socketHandler.js:153-213 | the code for an accepted guess computes exactly its outcome |
| SocketHandler.SubmitToRoom | backend/socketHandler.js:136-213 | refusals in order (not playing, not a member, too fast, invalid) leave the room unchanged; otherwise the guess is recorded and scored, and a room without a secret makes the handler throw after recording |
| SocketHandler.OnSubmitGuess | backend/socketHandler.js:133-214 | a missing room is refused; otherwise only the named room changes, as the guess handling says |
| SocketHandler.AutoDelete | backend/socketHandler.js:209-212 | the room is unregistered, if it still is |
| SocketHandler.OnRestartGame | backend/socketHandler.js:217-233 | only the host restarts, in any phase: waiting, no secret, start time or winner, empty guess maps, and the new room view broadcast |
| SocketHandler.PushMessage | backend/socketHandler.js:248-253 | the push and the cut keep the newest 100 messages |
| SocketHandler.OnChatMessage | backend/socketHandler.js:236-256 | only a member's message of 1 to 200 trimmed characters is stored and broadcast; anything else changes nothing |
| SocketHandler.OnDisconnect | backend/socketHandler.js:259-291 | the socket ends up in no room; a room it leaves empty is deleted; otherwise the others hear of the new host, when the host left, and of the departure |

## Left out

- Socket.io transport is not modelled. `socket.join`, `socket.to`, `io.to(...).emit` and the acknowledgement callbacks are returned values: `Reply`, `Event` and `Timer`.
- `console.log` output is not modelled.
- The `getPublicRooms` handler is not modelled separately. It only passes `Registry.GetAllPublicRooms` to its callback.
- Concurrency is not modelled. Node runs each handler to completion, so every handler is one atomic step.
- Real timers are not modelled. A scheduled timer is a returned value, and its body is a method the caller runs later.
- `Date.now()` is the parameter `now`. The model uses one `now` per handler, although the source reads the clock twice in `createRoom` (createdAt and joinedAt) and again for the win time in `submitGuess`.
- `uuidv4()` is the parameter `uuid`. The model requires at least six characters, as a real uuid has 36.
- `Math.random()` is the parameter `picks`. It holds the pool indices, each below the pool size at its step.
- GameLogic.GenerateSecret: ties only the first digit to `picks`. The later digits are stated to be distinct and not 0 at the start, but not which pool entries were drawn.
- SocketHandler.OnStartGame: states the secret's shape and first digit only, for the same reason as GenerateSecret.
- Handler inputs of the wrong JavaScript type are not modelled. A username, room id, guess or chat text that is missing or falsy is `None`, which the source refuses. A truthy value that is not a string makes the source throw at `username.trim()` (socketHandler.js:25, :46), `roomId.toUpperCase()` (:61) or `text.trim()` (:240); these throws are not modelled. Only the guess is checked for its type (gameLogic.js:53), and there a non-string is refused like `None`. A digit length that is not a number is an int outside 3-6.
- JsLength: `length` counts UTF-16 code units. Characters beyond U+FFFF count twice, so lone surrogates are not modelled.
- Js.ToUpper and Js.ToLower: map only the ASCII letters, not the full Unicode case mapping. Room ids made by `createRoom` come from a uuid and are ASCII, but `joinRoom` upper-cases the id the client typed (socketHandler.js:61), so a typed id can differ: JavaScript maps a non-ASCII character such as U+FB00 (the "ff" ligature) to ASCII letters ("FF"), and the source then finds a room that the model reports as not found. The case-insensitive name comparison in `joinRoom` can differ for non-ASCII letters too.
- SocketHandler.CountdownElapsed: the source's timer holds the room object; the model's timer holds the room id. While the room is registered, both change the same room. For a room deleted meanwhile, the model emits `gameStarted` with the digit length from the start of the game. The source emits the orphaned object's digit length, which can differ only if the host changed it after a restart and before everyone left. Likewise, when `createRoom` has meanwhile replaced the room under the same id, the model's timer sets the NEW room playing (without a secret), while the source's timer changes only the replaced object.
- SocketHandler.WinIsFinal: holds only for the next guess right after the win. A countdown left pending by a restart (start, restart, start again) has no phase check (socketHandler.js:120-122). When it fires after a win, it sets the finished game playing again with the winner kept, and a second player's correct guess is accepted and replaces the winner. `StaleCountdownReopensWin` proves this sequence possible.
- Aliasing is not modelled. A room is a value in the registry map, so `removePlayer`'s caller sees the room as the leave left it through the returned room, not through a shared object.
- Behaviour modelled as written:
  - `restartGame` has no phase check. A countdown still pending then sets the room to playing without a secret, and a guess that passes the checks is recorded before the handler throws (`Crashed`). Nothing in the server catches that throw, so under Node's default the whole process exits and every room is lost. The model does not capture this effect on the process: the registry after `Crashed` is the memory as it stood at the throw, with the recorded guess filed and all other rooms kept, not the state of a server that goes on running.
  - The same pending countdown can reopen a won game, see `SocketHandler.WinIsFinal` above.
  - The auto-delete after a win is never cancelled, so it also deletes a room restarted within the 60 seconds.
  - `createRoom` does not check for id collisions. A room under the same id is replaced and keeps its place in the order.
  - Only `joinRoom` upper-cases the room id. The other handlers look the id up as given.
- The defensive `getRoom` check after `findRoomBySocket` in `disconnect` is not modelled as a branch. `findRoomBySocket` only returns registered ids, so it cannot fail.
