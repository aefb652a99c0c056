# Mafia rooms and game engine, modelled in Dafny

This project models the server side of a browser game of mafia:

- the game engine of one room (phases, roles, votes, winner, per-player views);
- the rooms and their registry (joining, sealing, deleting, finding and creating rooms);
- the decision logic of the socket handlers for acknowledging a room, starting a game, voting and chatting;
- the earlier room prototype.

Every operation that changes state in the source is a method: on the class `Game`, `Room` or `Registry` when the source changes that object's fields, at module level for the socket handlers, which change the room and game they reach. Each method says what it may change (its `modifies` clause) and states the new state of those fields and the invariant it keeps. The loops of `assignRoles` are methods over local values (`DealRoles` and its steps). The pure parts are functions, with lemmas about them.

Modules, which follow the source files:

| module | file | models |
|---|---|---|
| `JsCore` | `js_core.dfy` | the JavaScript behaviour the code relies on: `indexOf` returning -1, `splice(start, 1)` with a negative start counting from the end, `null`/`undefined` as `Option` |
| `MafiaGame` | `mafia_game.dfy` | `mafia/game.js`: the phase machine, role assignment, vote tabulation, the winner and the exposed-players view, as the class `Game` plus functions |
| `MafiaRooms` | `mafia_rooms.dfy` | `mafia/rooms.js`: the classes `Room` and `Registry` (the module's `rooms` table and `pending` list) |
| `MafiaSession` | `mafia_session.dfy` | `mafia/index.js`: the `assertAck` guard and the `ackRoom`, `startGame`, `playerVote` and `chatMessage` handlers, as methods returning tagged outcomes |
| `Prototype` | `prototype_rooms.dfy` | `game/rooms.js`: the prototype room and registry |

## How the source's loose ends are resolved

**Keying.** Everything is keyed by player id, a string. The source keys `roles` and `elimPlayers` by player record (mafia/game.js:51-59). In JavaScript that key becomes the string "[object Object]", so every player would share one entry. The handlers, in contrast, read `roles[playerID]` and `elimPlayers.indexOf(player.id)` (mafia/index.js:123,158,175). The model follows the handlers throughout:

- `roles` is a map from id to role;
- `elimPlayers` is a sequence of ids;
- `votes` maps a voter's id to the target's id.

**Room lookups the game calls but rooms.js does not define.** `getPlayerCount`, `getPlayerIndex` and `getPlayerByIndex` are modelled as follows:

- `getPlayerCount` is the number of connected clients;
- `getPlayerIndex` is the position of the id in the room's `ids`, or -1;
- `getPlayerByIndex` is the id at that position, or undefined outside the roster.

**The game's view of its room.** A `Game` is given its room's roster (`ids`) and options when it is created. A room with a game is sealed, and nothing in the source removes or reorders `ids`, so the roster cannot change under the game (`Room.Valid`). The step `room.game = null` on a win (mafia/game.js:236) is done by `Room.AdvancePhase`, the model of the game timer firing.

**Players who left.** `Room.disconnect` deletes the client record but leaves the id in `ids`. `assignRoles` looks for a `disconnected` flag that nothing ever sets. The model therefore reads "disconnected" as "on the roster but no longer a client": `AssignRoles(connected)` walks the roster and treats ids outside `connected` (the room's client keys) as players who left. `getPlayerList` would read the name of a missing client and throw. `PlayerNames` returns `None` exactly in that case.

**Owner.** The owner is kept by id. `canStartGame` compares ids (mafia/index.js:113). The `startGame` handler compares client records by identity (mafia/index.js:135). The two differ only after the owner leaves and rejoins, because rejoining creates a new record. The model uses the id comparison in both places.

**Eliminated-target check.** `playerVote` checks `elimPlayers.indexOf(voteData.vote)`, which looks for a roster index among player ids and never finds it. The handler model uses the intended check, that the target at index `vote` is eliminated; the check as written is `JudgeVoteAsWritten` (see Findings).

**Winner example.** One example of the intended win rule says that one mafioso against one civilian, both alive, is not yet a win. The code (`civilian_count <= mafia_count`, mafia/game.js:159) gives that tie to the mafia. The model follows the code:

- `WinnerOfTie` proves the tie goes to the mafia;
- `WinnerOfOneAgainstTwo` proves the three-player version of the example.

**Parameters standing in for the world.**

- `Math.random` is a nondeterministic choice (`:|`). This covers the mafia draws, the detective draw, the tie-break among candidates, the room-id characters and the pick among pending rooms.
- Timers are the duration they were last set for (`Game.deadline`, `Room.timeout`). What a timer would trigger is an explicit call: `Room.AdvancePhase` for the game timer, `Room.Del` for the room timer.
- Sockets are handles. Emits are replaced by the outcome values the handlers return.
- mafia/index.js registers no `disconnect` handler. So no handler reaches `Room.Disconnect`, and it is called only explicitly. `Room.Del` is reached by the room timer and by `Room.Disconnect`.

**Sealing a deleted room.** `seal` in mafia/rooms.js splices at `pending.indexOf(this.id)` without checking it. The registry keeps two invariants: every pending id names a registered open room (`Registry.Valid`), and every registered open room is pending (`Registry.Listed`). So for a registered room the splice removes exactly its id (`SealPendingRemovesId`), and every other open room stays pending. A room whose inactivity timer has already deleted it can still be reached through a socket's session and sealed by its owner's `startGame`. In that case the splice drops the last pending room instead (`SealPendingOfAbsent`). `Valid` still holds, but that open room can no longer be found, so `Listed` is promised only when the sealed room is registered. The model keeps this behaviour as written.

## Model

| member | source | states |
|---|---|---|
| `JsCore.IndexOf` | mafia/rooms.js:44 | `indexOf` is -1 exactly when the element is absent; otherwise it is the first position holding it |
| `JsCore.Splice1` | mafia/rooms.js:86 | `splice(start, 1)` keeps only elements that were there and shortens the array by one exactly when the normalised start is in range |
| `JsCore.SpliceDistinct` | mafia/game.js:77 | removing one element keeps a duplicate-free array duplicate-free |
| `JsCore.SpliceIndexOf` | mafia/rooms.js:85-86 | splicing out the position `indexOf` found removes exactly that element and keeps the others in order |
| `MafiaGame.Game.constructor` | mafia/game.js:20-34 | a new game is at night, not voting, move 0, with no roles, eliminations, detective findings, votes or deadline |
| `MafiaGame.Toggled` | mafia/game.js:173-200 | the move is kept. Closing a vote flips day and night. Otherwise a vote opens exactly when it is neither the introduction night nor the first day, and day and night flip exactly when no vote opens |
| `MafiaGame.NextState` | mafia/game.js:173-205 | the whole phase change; its meaning is given by `StateAfterIsCycle`, `MoveCountsNewDays` and `NoVoteOnIntroductionOrFirstDay` |
| `MafiaGame.PhaseTimeout` | mafia/game.js:210-217 | the duration scheduled on entering a phase: the vote timeout during a vote, else the day or night timeout; `NextPhase` and `AdvancePhase` state their deadlines with it |
| `MafiaGame.StateAfterIsCycle` | mafia/game.js:172-205 | after k phase changes the state is: night 0, day 1, then the repeating cycle night, night vote, day, day vote, with move counting the days |
| `MafiaGame.OpeningPhases` | mafia/game.js:172-205 | the first eight phase changes give day 1, night 1, night-1 vote, day 2, day-2 vote, night 2, night-2 vote, day 3 |
| `MafiaGame.MoveCountsNewDays` | mafia/game.js:202-205 | `move` grows by one exactly when the new phase is a day without a vote |
| `MafiaGame.NoVoteOnIntroductionOrFirstDay` | mafia/game.js:190-199 | from the introduction night and from the first day, the phase change never opens a vote; it only flips day and night |
| `MafiaGame.VotesStartLate` | mafia/game.js:186-199 | from the start of a game, a night vote happens only from move 1 on and a day vote only from move 2 on |
| `MafiaGame.Game.TogglePhase` | mafia/game.js:173-200 | the state becomes the toggled one. Closing a vote empties the ballots and appends a top candidate, with its role, exactly when there were ballots. Opening a vote, or the direct flip on the introduction night and first day, leaves ballots and eliminations alone |
| `MafiaGame.Game.NextPhase` | mafia/game.js:172-251 | the state becomes the next phase. Closing a vote clears the ballots and appends the outvoted player (a top candidate, with its role) to the eliminated. Opening a vote touches neither. The winner is the winner of the new situation. Without a winner the deadline is the timeout of the new phase kind (vote, day or night); with one, nothing is scheduled |
| `MafiaGame.Game.GetWinner` | mafia/game.js:142-167 | the result is `WinnerOf`: civilians when no mafioso survives, else the mafia when the other survivors are no more than the mafiosi, else none |
| `MafiaGame.WinnerOfOneAgainstTwo` | mafia/game.js:156-166 | one mafioso against two civilians: no winner while all live; the civilians win once the mafioso is out; the mafia win once a civilian is out |
| `MafiaGame.WinnerOfTie` | mafia/game.js:159-162 | one surviving mafioso against one surviving civilian is a mafia win |
| `MafiaGame.Game.AssignRoles` | mafia/game.js:47-85 | every roster player gets an entry: players who left get no role and are exactly the eliminated, in roster order. Exactly `floor(connected / mafiaCoeff)` players are mafiosi. There is exactly one detective when the role is enabled and a civilian is left after the mafia draw, otherwise none |
| `MafiaGame.SeatRoster` | mafia/game.js:50-62 | the first loop's role table, eliminated list and civilian pool are the seating, the players outside `connected` and the players inside it, each in roster order |
| `MafiaGame.SeatingMeaning` | mafia/game.js:51-61 | the first loop seats exactly the walked players: the connected ones as civilians, the others with no role |
| `MafiaGame.SeatedRoles` | mafia/game.js:51-61 | after the first loop the roster is the key set, the players without a role are exactly those who left, no one is a mafioso or the detective, and the civilians are exactly the civilian pool |
| `MafiaGame.FiltersMembers` | mafia/game.js:54-61 | the civilian pool holds exactly the connected roster players, and the eliminated list exactly the others |
| `MafiaGame.FiltersDistinct` | mafia/game.js:54-61 | from a duplicate-free roster both lists are duplicate-free |
| `MafiaGame.DrawMafia` | mafia/game.js:64-78 | `count` distinct civilians become mafiosi, each taken out of the civilian pool; the pool shrinks by `count` and still lists exactly the civilians |
| `MafiaGame.DrawDetective` | mafia/game.js:80-84 | with the option on and a civilian left, exactly one civilian becomes the detective; otherwise no one does. The mafia and the players without a role are untouched |
| `MafiaGame.DealRoles` | mafia/game.js:47-85 | the three loops together: every roster player has an entry, and has no role exactly when it left; the eliminated are the players who left, in roster order; `floor(connected / mafiaCoeff)` mafiosi; one detective exactly when the role is on and a civilian is left after the mafia draw |
| `MafiaGame.Game.Start` | mafia/game.js:341-368 | roles are assigned as above; each connected player is told its role, and a mafioso also the mafia's roster indices; the night deadline is scheduled |
| `MafiaGame.Game.StartInfos` | mafia/game.js:346-361 | the `gameStarted` message of each connected player; its meaning is `StartInfosMeaning` |
| `MafiaGame.StartInfosMeaning` | mafia/game.js:346-361 | exactly the connected players are told, each its own role; a mafioso, and only a mafioso, also gets the list of the mafia's roster indices |
| `MafiaGame.NewGame` | mafia/game.js:374-379 | a room with a game keeps it; otherwise a fresh game with the room's roster and options is created and started |
| `MafiaGame.MafiaAmong` | mafia/game.js:126-134 | `getMafia` lists exactly the roster indices of the mafiosi, in increasing order |
| `MafiaGame.Game.MafiaMembers` | mafia/game.js:126-134 | the game's `getMafia`: `MafiaAmong` over its roster and role table |
| `MafiaGame.Game.ExposedPlayers` | mafia/game.js:88-123 | the game's `getExposedPlayers`: `ExposedView` over its roster, roles, eliminated and investigated players |
| `MafiaGame.PutMafia` | mafia/game.js:92-101 | the mafia loop of `getExposedPlayers`; its meaning is `PutMafiaSpec` |
| `MafiaGame.PutKnown` | mafia/game.js:104-120 | the detective and eliminated loops of `getExposedPlayers`; its meaning is `PutKnownSpec` |
| `MafiaGame.ExposedView` | mafia/game.js:88-123 | `getExposedPlayers` as the three loops in order, the eliminated entries last; its meaning is `ExposedViewSpec` |
| `MafiaGame.ExposedViewSpec` | mafia/game.js:88-123 | a viewer sees exactly: the eliminated players; its fellow mafiosi if it is a mafioso; the players it investigated if it is the detective. Every entry carries the player's role and is marked eliminated exactly when the player is |
| `MafiaGame.PutMafiaSpec` | mafia/game.js:92-101 | the mafia entries are added under their indices as living mafiosi, and other entries are kept |
| `MafiaGame.PutKnownSpec` | mafia/game.js:104-120 | each listed player is recorded under its roster index with its role, and other entries are kept |
| `MafiaGame.CastBallot` | mafia/game.js:269-283 | a voter who has not voted, is not eliminated and names an index inside the roster adds exactly one ballot, for the player at that index; in every other case the box is unchanged; ballots already cast never change |
| `MafiaGame.Game.ProcessVote` | mafia/game.js:267-284 | the new ballot box is `CastBallot` of the old one, with the eliminated list and roster |
| `MafiaGame.TallyOverGrow` | mafia/game.js:297-303 | counting one more ballot adds one to its target's count, starting it at 1 for a target not named yet |
| `MafiaGame.TallyOverAll` | mafia/game.js:296-303 | the count over all ballots has an entry for exactly the named targets, each holding its number of ballots |
| `MafiaGame.TallyVotes` | mafia/game.js:295-303 | the tally has an entry for exactly the named targets, each holding the number of ballots naming it |
| `MafiaGame.TopCandidates` | mafia/game.js:305-320 | the candidates are exactly the targets holding the largest tally, and there is at least one |
| `MafiaGame.Game.ProcessVoteResult` | mafia/game.js:289-336 | no ballots give no result. Otherwise the result is a top candidate's roster index and role. Either way the ballot box ends empty |
| `MafiaGame.DetectiveDrawAsWrittenPhantom` | mafia/game.js:80-84 | the detective step as written, with the role enabled and no civilian left, adds a detective under the key "undefined" that belongs to no player |
| `MafiaGame.DetectiveDrawAsWritten` | mafia/game.js:80-84 | the detective step as written: with the role on it always records a detective, under the drawn civilian or, with an empty pool, under "undefined" |
| `MafiaRooms.Room.constructor` | mafia/rooms.js:12-30 | a new room is open and empty, with no owner, game or timer |
| `MafiaRooms.Room.Connect` | mafia/rooms.js:33-63 | a sealed room is unchanged. An open room records the client and appends the id only if new. It seals exactly when the roster reaches `maxPlayers`, taking itself off `pending`. The owner is the first player to join and never changes. Existing indices are kept, and the room and registry invariants hold; for a registered room `Listed` is kept as well |
| `MafiaRooms.Room.RecordClient` | mafia/rooms.js:38-46 | the client record is stored; the id is appended only when not already on the roster, which stays duplicate-free; both registry invariants are untouched |
| `MafiaRooms.Room.Disconnect` | mafia/rooms.js:66-75 | only that client is removed, and the roster is kept. A room left without clients is deleted; otherwise the game and the registry are untouched; both registry invariants are kept |
| `MafiaRooms.Room.RemoveClient` | mafia/rooms.js:69 | only that client record goes; the room invariant and both registry invariants are kept |
| `MafiaRooms.Room.DropGame` | mafia/rooms.js:79-82 | a game has its timer cleared and is dropped; clients, roster and seal are untouched, and so are both registry invariants |
| `MafiaRooms.Room.Del` | mafia/rooms.js:78-90 | the game is dropped with its deadline cleared, the room leaves `rooms`, and its id leaves `pending`; both registry invariants are kept |
| `MafiaRooms.PlayerNames` | mafia/rooms.js:93-98 | the player list names the roster in join order; it fails exactly when some roster player is no longer a client |
| `MafiaRooms.Room.GetPlayerList` | mafia/rooms.js:93-98 | the room's `getPlayerList`: `PlayerNames` over its roster and clients |
| `MafiaRooms.Room.Seal` | mafia/rooms.js:103-113 | after the call the room is sealed. Only the first call splices `pending`. The registry's `Valid` is kept. A registered room is no longer pending, and `Listed` is kept too |
| `MafiaRooms.SealPending` | mafia/rooms.js:110 | the splice `seal` makes; its meaning is `SealPendingRemovesId` and `SealPendingOfAbsent` |
| `MafiaRooms.SealPendingRemovesId` | mafia/rooms.js:110 | for a pending id the splice removes exactly that id, keeps the others, and leaves the list duplicate-free and one shorter |
| `MafiaRooms.SealPendingOfAbsent` | mafia/rooms.js:110 | for an id that is not pending the splice drops the last pending room |
| `MafiaRooms.Room.SetRoomTimeout` | mafia/rooms.js:116-121 | the room timer is replaced by one for the given duration |
| `MafiaRooms.Room.StartGame` | mafia/rooms.js:125-130 | an open room, or one with a game, keeps its game. A sealed room without one gets a fresh game over its roster and clients that has just started (`JustStarted`): the first night, no ballots, nobody exposed, roles dealt over the clients, the first-night deadline, and the players' start messages. So a room with a game is always sealed |
| `MafiaRooms.Room.AdvancePhase` | mafia/game.js:172-251 | the game timer firing. The game moves to its next phase and keeps its roles. Closing a vote empties the ballots and appends a top candidate, with its role, exactly when there were ballots; otherwise the eliminated list is kept. The winner is that of the new situation. A won game is dropped from the room, with nothing scheduled; otherwise the next deadline is set. Only the game's phase, eliminated list, ballots and deadline can change, so the exposed list is kept |
| `MafiaRooms.AlphabetSize` | mafia/rooms.js:149-150 | room ids are drawn from 62 characters |
| `MafiaRooms.Registry.constructor` | mafia/rooms.js:5-9 | the registry starts with no rooms and nothing pending, and both invariants hold |
| `MafiaRooms.Registry.NewRoomID` | mafia/rooms.js:147-162 | the id has 8 characters from the alphabet. A fresh, open, empty room is filed under it and appended to `pending`, with its timer set. The invariant survives when the drawn id was not already pending; `Listed` always survives |
| `MafiaRooms.Registry.FindRoomID` | mafia/rooms.js:137-162 | with rooms pending the result is one of them and nothing changes. Otherwise a new room is created as `NewRoomID` does: an 8-character id over the alphabet, the other rooms kept, a fresh open empty room with the given options and timer, and it alone pending. Both registry invariants are kept |
| `MafiaSession.NameOrDefault` | mafia/index.js:65 | a missing or empty name falls back to the default; a non-empty name is kept |
| `MafiaSession.SnapshotOf` | mafia/index.js:107-126 | `playerIndex` is the player's roster position. `canStartGame` holds exactly when there is no game and the player is the owner. The game part is present exactly when a game is, and holds its state, the player's role and the player's exposed view |
| `MafiaSession.AckRoom` | mafia/index.js:58-70 | a missing payload or an unknown room is ignored and changes nothing. Otherwise the registered room handles the request as `AckInRoom` says, and a joined player's snapshot is `SnapshotOf` the new room state: its index, whether the player may start the game (no game yet and the player is the owner), the player list and the game view. Only the session on the socket, `pending`, and the room's clients, roster, owner and seal can change, so the room's game and timer never do. A refused newcomer leaves the room unchanged. The registry invariants and the room's invariant are kept |
| `MafiaSession.AckInRoom` | mafia/index.js:72-128 | a newcomer to a sealed room is refused and nothing changes. A newcomer to an open room joins as a first connection, as `Connect` says: the room seals exactly when the roster reaches `maxPlayers`, and then its id is spliced out of `pending`. A known player only gets its socket replaced, as a reconnection; roster, seal, owner and `pending` stay. A joined player's session is stored on the socket, and its snapshot is `SnapshotOf` the new room state. For a registered room `Listed` is kept |
| `MafiaSession.JoinOpenRoom` | mafia/index.js:83-128 | a newcomer to an open room connects as `Connect` says. The session is stored on the socket, and the snapshot is that of a first connection, taken of the new room state. `Valid` is kept, and `Listed` too for a registered room |
| `MafiaSession.Reconnect` | mafia/index.js:91-128 | a known player's client record only gets the new socket. The session is stored on the socket, and the snapshot is that of a reconnection. Nothing the registry invariants read changes |
| `MafiaSession.StartGameHandler` | mafia/index.js:11-18 | on a socket that has not acknowledged a room nothing happens; otherwise the room decides, as in `StartInRoom`. A declined start leaves the room and any existing game unchanged. Only the room's seal, game and timer and the `pending` list can change. For a registered room `Listed` is kept |
| `MafiaSession.StartInRoom` | mafia/index.js:132-145 | a game is started exactly when the requester is the owner and no game exists. The room is then sealed and given a fresh game over its clients that has just started (`JustStarted`): the first night, no ballots, nobody exposed, the first-night deadline. Its timer is set to the inactive-room duration. Otherwise nothing changes. For a registered room `Listed` is kept |
| `MafiaSession.JudgeVote` | mafia/index.js:157-180 | the verdict on a ballot; its meaning is `JudgeVoteRelayedIff` and `JudgeVoteWithoutGame` |
| `MafiaSession.GameFacts` | mafia/index.js:157-178 | what the handler reads from the game: its phase, role table and eliminated list, or nothing without a game |
| `MafiaSession.JudgeVoteRelayedIff` | mafia/index.js:155-183 | a ballot reaches the game exactly when the voter is a client, a game is in a voting phase, the voter is not eliminated, the target is neither the voter nor eliminated, and, at night, the voter is a mafioso. It goes room-wide by day and to the mafia, confirmed, by night. This is the intended check (see Findings) |
| `MafiaSession.JudgeVoteWithoutGame` | mafia/index.js:157 | without a game no ballot is handled |
| `MafiaSession.JudgeVoteAsWritten` | mafia/index.js:157-180 | the check as written, whose eliminated-target test is always false |
| `MafiaSession.JudgeVoteAsWrittenRecordsEliminatedTarget` | mafia/index.js:166-167 | as written, a day vote for an eliminated player's index is relayed and the ballot box gains a ballot against that player; the intended check rejects it |
| `MafiaSession.PlayerVoteHandler` | mafia/index.js:155-191 | the outcome is the verdict and the voter's index. Only a relayed ballot changes anything, and only the game's ballot box, by `CastBallot`, and the room timer, set to the inactive-room duration. Roster, clients, phase, roles and eliminated list are outside its frame |
| `MafiaSession.RouteChat` | mafia/index.js:197-221 | the routing of a chat message; its meaning is `RouteChatCases` |
| `MafiaSession.ChatTimeout` | mafia/index.js:229-231 | the timer a relayed message refreshes: the inactive-room one during a game, the new-room one before |
| `MafiaSession.RouteChatCases` | mafia/index.js:203-221 | at night during a game a mafioso's message goes to the mafia only and anyone else's is rejected; in every other case it goes to the whole room |
| `MafiaSession.ChatHandler` | mafia/index.js:195-234 | the outcome is the routing verdict, the sender's index and whether an acknowledgement is sent. A relayed message refreshes the inactive-room timer during a game and the new-room timer before one. Nothing else changes |
| `Prototype.ProtoRoom.constructor` | game/rooms.js:18-36 | a new prototype room is open and empty, with no owner or game |
| `Prototype.ProtoRoom.Connect` | game/rooms.js:39-61 | a sealed room is unchanged. An open room records the client and always appends the id. It seals once the roster reaches `maxPlayers`. The owner is the first player and never changes |
| `Prototype.ProtoRoom.Seal` | game/rooms.js:74-82 | after the call the room is sealed; only the first call splices `pending`, as written (see Findings) |
| `Prototype.ProtoSealPending` | game/rooms.js:79 | the splice as written removes the last pending id, whatever room is being sealed |
| `Prototype.ProtoSealMissesOwnId` | game/rooms.js:79 | a sealed room that is not last in `pending` stays pending, and the last pending room is dropped |
| `Prototype.ProtoSealKeepsSealedRoom` | game/rooms.js:79 | concretely, sealing "a" with `pending` equal to ["a", "b"] leaves ["a"] |
| `Prototype.ProtoRoom.StartGame` | game/rooms.js:86-89 | only a sealed room gets a game, and an existing game is kept |
| `Prototype.ProtoRoom.GetPlayerList` | game/rooms.js:92-95 | one name per roster entry, in join order, each the name of that entry's client |
| `Prototype.NamesOf` | game/rooms.js:94 | the mapped list has one name per id, read from the clients |
| `Prototype.ProtoRoom.GetGameInfo` | game/rooms.js:98-101 | there is game information exactly when the room has a game |
| `Prototype.ProtoRegistry.constructor` | game/rooms.js:7-11 | no rooms, nothing pending |
| `Prototype.ProtoRegistry.NewRoomID` | game/rooms.js:117-130 | an `ID_LENGTH`-character id over the alphabet, filed as a new open room with the module's fixed options and appended to `pending` |
| `Prototype.ProtoRegistry.FindRoomID` | game/rooms.js:107-130 | with rooms pending it returns one of them and nothing changes. Otherwise it creates an `ID_LENGTH`-character id over the alphabet, keeps the other rooms, files a fresh open empty room with the fixed options, and makes it the only pending room |

## Left out

- Timers and wall-clock time (`setTimeout`, `clearTimeout`, the `Date` arithmetic of `nextPhaseTimeout`, `getSecondsTillTimeout`). A timer is the duration it was set for, and its firing is an explicit `Room.AdvancePhase` or `Room.Del` call. The order in which timers and events interleave is not modelled.
- Socket.IO: emits, broadcasts, `join`/`leave` of the mafia sub-room, the `findRoom`/`newRoom`/`getNewPlayerID` events, `checkRoomExistence` and `initialize`. These are I/O. The handlers return what would be sent instead.
- `console.log` output, the client-IP logging and `uuid` generation.
- Randomness as a distribution. Draws are nondeterministic choices, so only membership and count facts are proved. How often each tied candidate is picked cannot be stated in this model.
- `leaveGame` has an empty body in the source and is left out.
- `detExpPlayers` is never filled by the source. The model keeps it for the exposed view. It is empty when a game starts (`Room.JustStarted`), and no method changes it afterwards.
- Doctor and bodyguard protection, detective investigations, and revealing a leaving player's role are not in these source files and are not modelled.
- `MafiaGame.DealRoles`: `mafiaCoeff` is a whole number of at least 1 (`Positive`). JavaScript would divide by any number, a fraction included, and take the floor; a zero coefficient would divide by zero and draw from an empty pool. Neither is modelled.
- The `detective` flag of `Options` stands for `optionalRoles.detective`, the only optional role the engine reads. The browser client treats `optionalRoles` as an array (public/js/client.js:819-822), so a client-built options object may not carry the flag at all; the model takes the flag as given.
- `MafiaGame.DrawDetective`: this is the corrected detective step (see Findings). The step as written is `DetectiveDrawAsWritten`.
- `MafiaSession.JudgeVoteRelayedIff`: this is the intended check. As written the source relays a vote for an eliminated player and `processVote` records it (see Findings, `JudgeVoteAsWrittenRecordsEliminatedTarget`).
- `MafiaSession.PlayerVoteHandler`: it uses the intended check of `JudgeVote`, so it rejects a vote for an eliminated player that the source relays and records. The ballot's `vote` is taken to be an integer. A non-numeric value from the client, which `getPlayerByIndex` would also reject, is not modelled.
- `MafiaRooms.Room.Disconnect`: it requires the player to be a client. The source reads `this.clients[playerID].playerName` first and throws on any other id; that failure is not modelled.
- `MafiaSession.AckInRoom`: when some roster player is no longer a client, `getPlayerList` throws and the source's `ackRoom` stops before `roomData` is sent. The model still answers `Joined`, with a snapshot whose `playerList` is `None`; the room changes made before the throw are modelled as made.
- Property lookups on plain objects (`playerID in room.clients`, `room.clients[playerID]`, `data.roomId in rooms`, mafia/index.js:63,76,84) also match names inherited by every JavaScript object, such as "constructor". The model's maps hold only what was stored, so such an id is treated as absent.
- `MafiaSession.StartInRoom`: ownership is compared by id, not by record identity (see above). After the owner leaves and rejoins, the source's identity check would refuse the owner; the model does not capture that.
- Player order when walking the client and role tables. The source relies on JavaScript's insertion order of keys; the model walks the roster in join order and the role table in an arbitrary order.
- The browser client, the Express and Socket.IO bootstrap, the earlier transport layer of the prototype, and the prototype's stub game beyond "present or absent" are outside this model.

## Findings

| source | as written | input that shows it | evidently intended | confidence | as-written member | corrected member |
|---|---|---|---|---|---|---|
| game/rooms.js:79 | `pending.splice(pending.indexOf(this), 1)` searches a list of room ids for the room object, which is never there; `indexOf` yields -1 and the splice drops the last pending id | `pending` = ["a", "b"], seal room "a": `pending` becomes ["a"], so the sealed room stays findable and the open room "b" is hidden | splice at the room's own id, `pending.indexOf(this.id)`, as mafia/rooms.js:110 does | high; not executed | `Prototype.ProtoSealMissesOwnId` | `MafiaRooms.SealPendingRemovesId` |
| mafia/game.js:81 | `if (...detective && civilians)` tests the array, which is always truthy, so the draw runs with an empty pool; `civilians[0]` is undefined and the detective role is written under the key "undefined" | `mafiaCoeff` = 1: every connected player becomes a mafioso, the pool is empty, and the role table gains a detective that is no player | draw a detective only when a civilian is left (`civilians.length > 0`) | medium; not executed | `MafiaGame.DetectiveDrawAsWrittenPhantom` | `MafiaGame.DrawDetective` |
| mafia/index.js:166-167 | `room.game.elimPlayers.indexOf(voteData.vote) > -1` looks for the roster index the client sent among the eliminated players' ids; a number never equals an id, so the test is always false | at day vote, a living voter votes for the index of a player already voted out: the vote is relayed, `processVote` records it, and that player can top the tally and be appended to `elimPlayers` a second time | reject a vote whose target, the player at index `vote`, is eliminated, as the comment above the test says | high; not executed | `MafiaSession.JudgeVoteAsWrittenRecordsEliminatedTarget` | `MafiaSession.JudgeVoteRelayedIff` |
