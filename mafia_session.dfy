/** The decision logic of the socket event handlers (mafia/index.js).

    Each handler is a method that does to the rooms and the game what the
    handler does, and returns a tag saying which way it went (and what would
    have been sent) instead of emitting on sockets. A socket carries the
    session data `ackRoom` stores on it: the room and the player's id. */
module MafiaSession {
  import opened JsCore
  import opened MafiaGame
  import opened MafiaRooms

  /** The configuration values the handlers read. */
  datatype Config = Config(
    defaultOptions: Options,
    defaultName: string,
    newRoomTimeout: nat,
    inactiveRoomTimeout: nat)

  /** `socket.userData`: the acknowledged room and the player in it. */
  datatype UserData = UserData(room: Room, player: PlayerId)

  class Socket {
    const handle: Handle
    var userData: Option<UserData>

    constructor (handle: Handle)
      ensures this.handle == handle && userData == None
    {
      this.handle := handle;
      userData := None;
    }
  }

  /** Where a relayed message or vote goes: the whole room or the mafia's
      sub-room. */
  datatype Scope = RoomWide | MafiaOnly

  // ---------------------------------------------------------------------------
  // ackRoom

  /** The `ackRoom` payload; a missing room is a missing payload. */
  datatype AckRequest = AckRequest(roomId: RoomId, playerId: PlayerId, playerName: Option<string>)

  /** `data.playerName || config.defaultName`: an absent or empty name falls
      back to the default. */
  function NameOrDefault(name: Option<string>, fallback: string): (r: string)
    ensures r == fallback || (name.Some? && r == name.value)
    ensures r == fallback <== name.None? || name.value == ""
    ensures name.Some? && name.value != "" ==> r == name.value
  {
    if name.Some? && name.value != "" then name.value else fallback
  }

  /** The game part of a room snapshot. */
  datatype GameView = GameView(state: State, role: Role, exposed: map<int, Exposure>)

  /** The `roomData` a joining player receives. */
  datatype Snapshot = Snapshot(
    playerIndex: int,
    isFirstConnection: bool,
    canStartGame: bool,
    playerList: Option<seq<string>>,
    game: Option<GameView>)

  datatype AckOutcome = AckIgnored | RoomIsSealed | Joined(snapshot: Snapshot)

  /** The `roomData` of player `pid` in `room`. */
  function SnapshotOf(room: Room, pid: PlayerId, first: bool): (s: Snapshot)
    reads room, room.game
    ensures pid in room.ids ==> 0 <= s.playerIndex < |room.ids| && room.ids[s.playerIndex] == pid
    ensures pid !in room.ids ==> s.playerIndex == -1
    ensures s.canStartGame <==> room.game == null && room.owner == Some(pid)
    ensures s.isFirstConnection == first && s.playerList == room.GetPlayerList()
    ensures s.game.Some? <==> room.game != null
    ensures s.game.Some? ==>
      && s.game.value.state == room.game.state
      && s.game.value.role == RoleIn(room.game.roles, pid)
      && s.game.value.exposed == room.game.ExposedPlayers(pid)
  {
    Snapshot(
      IndexOf(room.ids, pid),
      first,
      room.game == null && room.owner == Some(pid),
      room.GetPlayerList(),
      if room.game == null then None
      else Some(GameView(room.game.state, RoleIn(room.game.roles, pid), room.game.ExposedPlayers(pid))))
  }

  /** The room an `ackRoom` payload names, when it is registered. */
  function TargetRooms(reg: Registry, data: Option<AckRequest>): set<Room>
    reads reg
  {
    if data.Some? && data.value.roomId in reg.rooms then {reg.rooms[data.value.roomId]} else {}
  }

  /** `ackRoom`: a player acknowledges the room it was sent to. A missing
      payload or an unknown room is ignored; otherwise the registered room
      handles it as `AckInRoom` says. */
  method AckRoom(reg: Registry, sock: Socket, cfg: Config, data: Option<AckRequest>) returns (o: AckOutcome)
    requires reg.Valid()
    requires data.Some? && data.value.roomId in reg.rooms ==> reg.rooms[data.value.roomId].Valid()
    modifies sock`userData, reg`pending
    modifies TargetRooms(reg, data)`clients, TargetRooms(reg, data)`ids
    modifies TargetRooms(reg, data)`owner, TargetRooms(reg, data)`isSealed
    ensures reg.Valid() && reg.rooms == old(reg.rooms)
    ensures old(reg.Listed()) ==> reg.Listed()
    ensures data.None? || data.value.roomId !in reg.rooms ==>
      o == AckIgnored && sock.userData == old(sock.userData) && reg.pending == old(reg.pending)
    ensures data.Some? && data.value.roomId in reg.rooms ==> reg.rooms[data.value.roomId].Valid()
    ensures data.Some? && data.value.roomId in reg.rooms ==>
      AckedIn(reg, reg.rooms[data.value.roomId], sock, data.value.playerId, NameOrDefault(data.value.playerName, cfg.defaultName), o)
    ensures data.Some? && data.value.roomId in reg.rooms && o == RoomIsSealed ==> unchanged(reg.rooms[data.value.roomId])
    ensures data.Some? && data.value.roomId in reg.rooms && o.Joined? ==>
      o.snapshot == SnapshotOf(reg.rooms[data.value.roomId], data.value.playerId, o.snapshot.isFirstConnection)
  {
    if data.None? {
      return AckIgnored;
    }
    var req := data.value;
    if req.roomId !in reg.rooms {
      return AckIgnored;
    }
    var room := reg.rooms[req.roomId];
    var name := NameOrDefault(req.playerName, cfg.defaultName);
    o := AckInRoom(reg, room, sock, req.playerId, name);
  }

  /** What `ackRoom` leaves when it reaches `room` for player `pid` named
      `name`, relative to the state before. */
  twostate predicate AckedIn(reg: Registry, room: Room, sock: Socket, pid: PlayerId, name: string, o: AckOutcome)
    reads reg, room, sock
  {
    && (pid !in old(room.clients) && old(room.isSealed) ==>
          o == RoomIsSealed && sock.userData == old(sock.userData)
          && room.clients == old(room.clients) && room.ids == old(room.ids)
          && reg.pending == old(reg.pending))
    && (pid !in old(room.clients) && !old(room.isSealed) ==>
          && o.Joined? && o.snapshot.isFirstConnection
          && room.clients == old(room.clients)[pid := Client(pid, name, sock.handle)]
          && room.ids == (if pid in old(room.ids) then old(room.ids) else old(room.ids) + [pid])
          && room.isSealed == (|room.ids| >= room.options.maxPlayers)
          && reg.pending == (if room.isSealed then SealPending(old(reg.pending), room.id) else old(reg.pending)))
    && (pid in old(room.clients) ==>
          && o.Joined? && !o.snapshot.isFirstConnection
          && room.clients == old(room.clients)[pid := old(room.clients[pid]).(socket := sock.handle)]
          && room.ids == old(room.ids) && room.isSealed == old(room.isSealed)
          && room.owner == old(room.owner) && reg.pending == old(reg.pending))
    && (o.Joined? ==>
          && sock.userData == Some(UserData(room, pid))
          && 0 <= o.snapshot.playerIndex < |room.ids| && room.ids[o.snapshot.playerIndex] == pid)
  }

  /** The part of `ackRoom` past the room lookup: a newcomer to a sealed room
      is told so and nothing changes; a newcomer to an open room joins it; a
      known player only gets its socket replaced. Both of the last two attach
      the session to the socket and answer with the room snapshot. */
  method AckInRoom(reg: Registry, room: Room, sock: Socket, pid: PlayerId, name: string) returns (o: AckOutcome)
    requires room.Valid()
    modifies sock`userData, reg`pending, room`clients, room`ids, room`owner, room`isSealed
    ensures room.Valid()
    ensures AckedIn(reg, room, sock, pid, name, o)
    ensures o == RoomIsSealed || o.Joined?
    ensures o == RoomIsSealed ==> unchanged(room)
    ensures o.Joined? ==> o.snapshot == SnapshotOf(room, pid, o.snapshot.isFirstConnection)
    ensures old(reg.Valid()) ==> reg.Valid()
    ensures old(reg.Valid() && reg.Listed()) && room.RegisteredIn(reg) ==> reg.Listed()
  {
    if pid !in room.clients && room.isSealed {
      return RoomIsSealed;
    }
    if pid !in room.clients {
      o := JoinOpenRoom(reg, room, sock, pid, name);
    } else {
      o := Reconnect(reg, room, sock, pid);
    }
  }

  /** A newcomer to an open room: `connect`, then the session and the
      snapshot of a first connection. */
  method JoinOpenRoom(reg: Registry, room: Room, sock: Socket, pid: PlayerId, name: string) returns (o: AckOutcome)
    requires room.Valid() && pid !in room.clients && !room.isSealed
    modifies sock`userData, reg`pending, room`clients, room`ids, room`owner, room`isSealed
    ensures room.Valid()
    ensures AckedIn(reg, room, sock, pid, name, o)
    ensures o.Joined? && o.snapshot == SnapshotOf(room, pid, true)
    ensures old(reg.Valid()) ==> reg.Valid()
    ensures old(reg.Valid() && reg.Listed()) && room.RegisteredIn(reg) ==> reg.Listed()
  {
    room.Connect(reg, pid, name, sock.handle);
    label connected:
    sock.userData := Some(UserData(room, pid));
    reg.Kept@connected();
    o := Joined(SnapshotOf(room, pid, true));
  }

  /** A known player: only its client's socket is replaced; then the session
      and the snapshot of a reconnection. */
  method Reconnect(reg: Registry, room: Room, sock: Socket, pid: PlayerId) returns (o: AckOutcome)
    requires room.Valid() && pid in room.clients
    modifies sock`userData, room`clients
    ensures room.Valid()
    ensures room.clients == old(room.clients)[pid := old(room.clients[pid]).(socket := sock.handle)]
    ensures sock.userData == Some(UserData(room, pid))
    ensures o.Joined? && o.snapshot == SnapshotOf(room, pid, false)
    ensures old(reg.Valid()) ==> reg.Valid()
    ensures old(reg.Listed()) ==> reg.Listed()
  {
    label known:
    room.clients := room.clients[pid := room.clients[pid].(socket := sock.handle)];
    sock.userData := Some(UserData(room, pid));
    reg.Kept@known();
    o := Joined(SnapshotOf(room, pid, false));
  }

  // ---------------------------------------------------------------------------
  // startGame

  datatype StartOutcome = StartIgnored | StartDeclined | GameStarted(infos: map<PlayerId, StartInfo>)

  /** The room a socket has acknowledged, if any. */
  function SessionRooms(sock: Socket): set<Room>
    reads sock
  {
    if sock.userData.None? then {} else {sock.userData.value.room}
  }

  /** The game of the room a socket has acknowledged, if there is one. */
  function SessionGames(sock: Socket): set<Game>
    reads sock, SessionRooms(sock)
  {
    if sock.userData.None? || sock.userData.value.room.game == null then {}
    else {sock.userData.value.room.game}
  }

  /** `startGame` (behind `assertAck`): ignored on a socket that has not
      acknowledged a room; otherwise decided by `StartInRoom`. */
  method StartGameHandler(reg: Registry, sock: Socket, cfg: Config) returns (o: StartOutcome)
    requires sock.userData.Some? ==> sock.userData.value.room.Valid()
    modifies reg`pending, SessionRooms(sock)`isSealed, SessionRooms(sock)`game, SessionRooms(sock)`timeout
    ensures sock.userData.None? ==> o == StartIgnored && reg.pending == old(reg.pending)
    ensures old(reg.Valid()) ==> reg.Valid()
    ensures old(reg.Valid() && reg.Listed()) && sock.userData.Some? && sock.userData.value.room.RegisteredIn(reg) ==>
      reg.Listed()
    ensures sock.userData.Some? ==>
      && sock.userData.value.room.Valid()
      && StartedIn(reg, sock.userData.value.room, sock.userData.value.player, cfg, o)
  {
    if sock.userData.None? {
      return StartIgnored;
    }
    o := StartInRoom(reg, sock.userData.value.room, sock.userData.value.player, cfg);
  }

  /** What `startGame` leaves in `room` when player `pid` asks. */
  twostate predicate StartedIn(reg: Registry, room: Room, pid: PlayerId, cfg: Config, o: StartOutcome)
    reads reg, room, room.game
  {
    && (o.GameStarted? <==> old(room.owner) == Some(pid) && old(room.game) == null)
    && (o.StartDeclined? <==> !o.GameStarted?)
    && (o.StartDeclined? ==>
          unchanged(room) && (room.game != null ==> unchanged(room.game)) && reg.pending == old(reg.pending))
    && (o.GameStarted? ==>
          && room.isSealed && room.game != null && fresh(room.game) && room.JustStarted(o.infos)
          && room.clients == old(room.clients) && room.ids == old(room.ids)
          && room.timeout == Some(cfg.inactiveRoomTimeout)
          && reg.pending == (if old(room.isSealed) then old(reg.pending) else SealPending(old(reg.pending), room.id)))
  }

  /** Only the owner of a room without a game may start one; the room is
      sealed first, and its timer becomes the inactive-room one. */
  method StartInRoom(reg: Registry, room: Room, pid: PlayerId, cfg: Config) returns (o: StartOutcome)
    requires room.Valid()
    modifies reg`pending, room`isSealed, room`game, room`timeout
    ensures room.Valid()
    ensures StartedIn(reg, room, pid, cfg, o)
    ensures old(reg.Valid()) ==> reg.Valid()
    ensures old(reg.Valid() && reg.Listed()) && room.RegisteredIn(reg) ==> reg.Listed()
  {
    if room.owner == Some(pid) && room.game == null {
      room.Seal(reg);
      label sealed:
      var infos := room.StartGame();
      room.SetRoomTimeout(cfg.inactiveRoomTimeout);
      reg.Kept@sealed();
      o := GameStarted(infos);
    } else {
      o := StartDeclined;
    }
  }

  // ---------------------------------------------------------------------------
  // playerVote

  /** How `playerVote` treats a ballot: not handled at all, rejected back to
      the voter, or relayed (and confirmed to the voter at night). */
  datatype VoteVerdict = VoteNotHandled | VoteRejected | VoteRelayed(scope: Scope, confirmed: bool)

  /** The conditions of `playerVote`. Only a client of a room whose game is in
      a voting phase, and who is not eliminated, is heard. A vote for one's
      own index or for an eliminated player is rejected (the intended test;
      `JudgeVoteAsWritten` is the source's). By day the vote is
      relayed to the room; by night only a mafioso's vote is relayed, to the
      mafia, and confirmed. */
  function JudgeVote(inRoom: bool, game: Option<(State, map<PlayerId, Role>, seq<PlayerId>)>,
                     ids: seq<PlayerId>, voter: PlayerId, vote: int): VoteVerdict
  {
    if !inRoom || game.None? || !game.value.0.isVoting || voter in game.value.2 then VoteNotHandled
    else
      var (state, roles, elim) := game.value;
      if IndexOf(ids, voter) == vote || (0 <= vote < |ids| && ids[vote] in elim) then VoteRejected
      else if state.isDay then VoteRelayed(RoomWide, false)
      else if RoleIn(roles, voter) == Mafia then VoteRelayed(MafiaOnly, true)
      else VoteRejected
  }

  /** A ballot reaches the game exactly when a game is on, it is a voting
      phase, the voter is a client and not eliminated, the target is neither
      the voter nor eliminated, and, at night, the voter is a mafioso. */
  lemma JudgeVoteRelayedIff(inRoom: bool, state: State, roles: map<PlayerId, Role>, elim: seq<PlayerId>,
                            ids: seq<PlayerId>, voter: PlayerId, vote: int)
    ensures JudgeVote(inRoom, Some((state, roles, elim)), ids, voter, vote).VoteRelayed? <==>
      && inRoom && state.isVoting && voter !in elim
      && IndexOf(ids, voter) != vote
      && !(0 <= vote < |ids| && ids[vote] in elim)
      && (state.isDay || RoleIn(roles, voter) == Mafia)
    ensures JudgeVote(inRoom, Some((state, roles, elim)), ids, voter, vote).VoteRelayed? ==>
      JudgeVote(inRoom, Some((state, roles, elim)), ids, voter, vote) ==
        (if state.isDay then VoteRelayed(RoomWide, false) else VoteRelayed(MafiaOnly, true))
  {
  }

  /** The conditions of `playerVote` as written. The second test,
      `elimPlayers.indexOf(voteData.vote) > -1`, looks for the roster index
      the client sent among the eliminated players' ids; an index is never
      equal to an id, so the test is always false and a vote for an
      eliminated player is judged like any other. */
  function JudgeVoteAsWritten(inRoom: bool, game: Option<(State, map<PlayerId, Role>, seq<PlayerId>)>,
                              ids: seq<PlayerId>, voter: PlayerId, vote: int): VoteVerdict
  {
    if !inRoom || game.None? || !game.value.0.isVoting || voter in game.value.2 then VoteNotHandled
    else
      var (state, roles, elim) := game.value;
      if IndexOf(ids, voter) == vote then VoteRejected
      else if state.isDay then VoteRelayed(RoomWide, false)
      else if RoleIn(roles, voter) == Mafia then VoteRelayed(MafiaOnly, true)
      else VoteRejected
  }

  /** As written, a day vote for an eliminated player's index is relayed and
      `processVote` records it: the ballot box gains a ballot against a
      player who is already out. The intended check rejects it. */
  lemma JudgeVoteAsWrittenRecordsEliminatedTarget(state: State, roles: map<PlayerId, Role>, elim: seq<PlayerId>,
                                                  ids: seq<PlayerId>, votes: map<PlayerId, PlayerId>,
                                                  voter: PlayerId, vote: int)
    requires state.isDay && state.isVoting && voter !in elim && voter !in votes
    requires 0 <= vote < |ids| && ids[vote] in elim && IndexOf(ids, voter) != vote
    ensures JudgeVoteAsWritten(true, Some((state, roles, elim)), ids, voter, vote) == VoteRelayed(RoomWide, false)
    ensures JudgeVote(true, Some((state, roles, elim)), ids, voter, vote) == VoteRejected
    ensures var after := CastBallot(votes, elim, ids, voter, vote);
      after != votes && voter in after && after[voter] in elim
  {
  }

  /** Without a game no ballot is heard. */
  lemma JudgeVoteWithoutGame(inRoom: bool, ids: seq<PlayerId>, voter: PlayerId, vote: int)
    ensures JudgeVote(inRoom, None, ids, voter, vote) == VoteNotHandled
  {
  }

  /** The game facts `playerVote` reads, or none without a game. */
  function GameFacts(room: Room): Option<(State, map<PlayerId, Role>, seq<PlayerId>)>
    reads room, room.game
  {
    if room.game == null then None else Some((room.game.state, room.game.roles, room.game.elimPlayers))
  }

  datatype VoteOutcome = VoteIgnored | Voted(verdict: VoteVerdict, playerIndex: int)

  /** `playerVote`: judge the ballot; a relayed ballot goes to the game's
      `processVote` and refreshes the inactive-room timer. */
  method PlayerVoteHandler(sock: Socket, cfg: Config, vote: int) returns (o: VoteOutcome)
    requires sock.userData.Some? ==> sock.userData.value.room.Valid()
    modifies SessionRooms(sock)`timeout, SessionGames(sock)`votes
    ensures sock.userData.None? ==> o == VoteIgnored
    ensures sock.userData.Some? ==>
      var room, pid := sock.userData.value.room, sock.userData.value.player;
      && room.Valid() && room.game == old(room.game)
      && o == Voted(JudgeVote(pid in room.clients, old(GameFacts(room)), room.ids, pid, vote), IndexOf(room.ids, pid))
      && (!o.verdict.VoteRelayed? ==> unchanged(room) && (room.game != null ==> unchanged(room.game)))
      && (o.verdict.VoteRelayed? ==>
            && room.game != null
            && room.game.votes == CastBallot(old(room.game.votes), room.game.elimPlayers, room.ids, pid, vote)
            && room.timeout == Some(cfg.inactiveRoomTimeout))
  {
    if sock.userData.None? {
      return VoteIgnored;
    }
    var room, pid := sock.userData.value.room, sock.userData.value.player;
    var verdict := JudgeVote(pid in room.clients, GameFacts(room), room.ids, pid, vote);
    o := Voted(verdict, IndexOf(room.ids, pid));
    if verdict.VoteRelayed? {
      room.game.ProcessVote(pid, vote);
      room.SetRoomTimeout(cfg.inactiveRoomTimeout);
    }
  }

  // ---------------------------------------------------------------------------
  // chatMessage

  /** How `chatMessage` treats a message: not handled, rejected, or relayed. */
  datatype ChatVerdict = ChatNotHandled | ChatRejected | ChatRelayed(scope: Scope)

  /** Chat is closed at night for everyone but the mafia, whose messages then
      go to the mafia only; otherwise messages go to the whole room. */
  function RouteChat(inRoom: bool, hasGame: bool, isDay: bool, senderIsMafia: bool): ChatVerdict {
    if !inRoom then ChatNotHandled
    else if hasGame && !isDay then (if senderIsMafia then ChatRelayed(MafiaOnly) else ChatRejected)
    else ChatRelayed(RoomWide)
  }

  /** The timer a relayed message refreshes: the inactive-room one while a
      game is on, the new-room one before. */
  function ChatTimeout(hasGame: bool, cfg: Config): nat {
    if hasGame then cfg.inactiveRoomTimeout else cfg.newRoomTimeout
  }

  /** A client's message reaches the mafia only exactly when a game is on, it
      is night, and the sender is a mafioso; it is rejected exactly when a
      game is on, it is night and the sender is not; it reaches the room in
      every other case. */
  lemma RouteChatCases(hasGame: bool, isDay: bool, senderIsMafia: bool)
    ensures RouteChat(true, hasGame, isDay, senderIsMafia) == ChatRelayed(MafiaOnly) <==>
      hasGame && !isDay && senderIsMafia
    ensures RouteChat(true, hasGame, isDay, senderIsMafia) == ChatRejected <==>
      hasGame && !isDay && !senderIsMafia
    ensures RouteChat(true, hasGame, isDay, senderIsMafia) == ChatRelayed(RoomWide) <==>
      !hasGame || isDay
  {
  }

  /** `chatMessage` answers: ignored, or the verdict, the sender's index, and
      whether the client gets a confirmation or rejection (only for a message
      that carries an id). */
  datatype ChatOutcome = ChatIgnored | Chatted(verdict: ChatVerdict, playerIndex: int, acknowledged: bool)

  /** `chatMessage`: route the message; a relayed message refreshes the room
      timer chosen by `ChatTimeout`. */
  method ChatHandler(sock: Socket, cfg: Config, hasId: bool) returns (o: ChatOutcome)
    requires sock.userData.Some? ==> sock.userData.value.room.Valid()
    modifies SessionRooms(sock)`timeout
    ensures sock.userData.None? ==> o == ChatIgnored
    ensures sock.userData.Some? ==>
      var room, pid := sock.userData.value.room, sock.userData.value.player;
      && room.Valid() && room.game == old(room.game)
      && (room.game != null ==> unchanged(room.game))
      && room.clients == old(room.clients) && room.ids == old(room.ids)
      && room.isSealed == old(room.isSealed) && room.owner == old(room.owner)
      && var verdict := RouteChat(pid in room.clients, room.game != null,
                                  room.game != null && room.game.state.isDay,
                                  room.game != null && RoleIn(room.game.roles, pid) == Mafia);
      && (verdict == ChatNotHandled ==> o == Chatted(ChatNotHandled, -1, false) && unchanged(room))
      && (verdict != ChatNotHandled ==> o == Chatted(verdict, IndexOf(room.ids, pid), hasId))
      && (verdict.ChatRelayed? ==> room.timeout == Some(ChatTimeout(room.game != null, cfg)))
      && (!verdict.ChatRelayed? ==> room.timeout == old(room.timeout))
  {
    if sock.userData.None? {
      return ChatIgnored;
    }
    var room, pid := sock.userData.value.room, sock.userData.value.player;
    var hasGame := room.game != null;
    var verdict := RouteChat(pid in room.clients, hasGame,
                             hasGame && room.game.state.isDay,
                             hasGame && RoleIn(room.game.roles, pid) == Mafia);
    if verdict == ChatNotHandled {
      return Chatted(ChatNotHandled, -1, false);
    }
    o := Chatted(verdict, IndexOf(room.ids, pid), hasId);
    if verdict.ChatRelayed? {
      room.SetRoomTimeout(ChatTimeout(hasGame, cfg));
    }
  }
}
