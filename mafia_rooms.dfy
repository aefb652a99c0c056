/** Rooms and the room registry (mafia/rooms.js).

    A room collects clients under their player ids, remembers the ids in
    join order, is owned by the first player who joined, and is sealed (no
    one else may join) once full or once its owner starts the game. The
    registry is the module-level `rooms` table and the `pending` list of rooms
    still open for joining. Timers are modelled as the duration they were
    last set for; what they would trigger (`del` for the room timeout,
    `nextPhase` for the game timeout) is called explicitly. */
module MafiaRooms {
  import opened JsCore
  import opened MafiaGame

  type RoomId = string

  /** A stand-in for a client's socket. */
  type Handle = nat

  /** A client record: `{id, playerName, socket}`. */
  datatype Client = Client(id: PlayerId, playerName: string, socket: Handle)

  /** The characters a room id is made of, and its length. */
  const Alphabet: string := "0123456789abcdefghijklmnopqrstuvwxyzABCDEFGHIJKLMNOPQRSTUVWXYZ"
  const IdLength: nat := 8

  lemma AlphabetSize()
    ensures |Alphabet| == 62
  {
  }

  /** What `pending.splice(pending.indexOf(id), 1)` leaves of `pending`. */
  function SealPending(pending: seq<RoomId>, id: RoomId): seq<RoomId> {
    Splice1(pending, IndexOf(pending, id))
  }

  /** For an id that is pending, the splice removes exactly that id and keeps
      the order of the other pending rooms. */
  lemma SealPendingRemovesId(pending: seq<RoomId>, id: RoomId)
    requires Distinct(pending) && id in pending
    ensures id !in SealPending(pending, id)
    ensures Distinct(SealPending(pending, id))
    ensures forall k :: k in SealPending(pending, id) <==> k in pending && k != id
    ensures |SealPending(pending, id)| == |pending| - 1
  {
    SpliceIndexOf(pending, id);
    SpliceDistinct(pending, IndexOf(pending, id));
  }

  /** For an id that is not pending (a room already deleted), `indexOf`
      yields -1 and the splice drops the LAST pending room instead. */
  lemma SealPendingOfAbsent(pending: seq<RoomId>, id: RoomId)
    requires id !in pending && pending != []
    ensures SealPending(pending, id) == pending[..|pending| - 1]
  {
    SpliceMinusOne(pending);
  }

  /** `getPlayerList`: the names of the roster in join order. A player who has
      left is still on the roster but no longer a client; reading its name
      fails (a `TypeError` in the source), modelled as `None`. */
  function PlayerNames(ids: seq<PlayerId>, clients: map<PlayerId, Client>): (r: Option<seq<string>>)
    ensures r.Some? <==> forall p :: p in ids ==> p in clients
    ensures r.Some? ==> |r.value| == |ids|
    ensures r.Some? ==> forall i :: 0 <= i < |ids| ==> ids[i] in clients && r.value[i] == clients[ids[i]].playerName
  {
    if ids == [] then Some([])
    else
      var n := |ids| - 1;
      assert forall p :: p in ids <==> p in ids[..n] || p == ids[n];
      var front := PlayerNames(ids[..n], clients);
      if front.None? || ids[n] !in clients then None
      else Some(front.value + [clients[ids[n]].playerName])
  }

  class Room {
    const id: RoomId
    const options: Options
    var isSealed: bool
    /** Connected clients, by player id. */
    var clients: map<PlayerId, Client>
    /** Every player who ever joined, in join order. */
    var ids: seq<PlayerId>
    /** The owner, by player id: the first player who joined. */
    var owner: Option<PlayerId>
    var game: Game?
    /** The pending room timeout, as the duration it was set for. */
    var timeout: Option<nat>

    ghost predicate Valid()
      reads this, game
    {
      && Distinct(ids)
      && (forall p :: p in clients ==> p in ids && clients[p].id == p)
      && owner == (if ids == [] then None else Some(ids[0]))
      && (ids != [] && |ids| >= options.maxPlayers ==> isSealed)
      && (game != null ==> isSealed && game.ids == ids && game.options == options && game.Valid())
    }

    /** `new Room(id, options)`: open, empty, without owner, game or timer. */
    constructor (id: RoomId, options: Options)
      ensures Valid()
      ensures this.id == id && this.options == options
      ensures !isSealed && clients == map[] && ids == [] && owner == None
      ensures game == null && timeout == None
    {
      this.id := id;
      this.options := options;
      isSealed := false;
      clients := map[];
      ids := [];
      owner := None;
      game := null;
      timeout := None;
    }

    /** The room is the one filed under its id. */
    ghost predicate RegisteredIn(reg: Registry)
      reads reg
    {
      id in reg.rooms && reg.rooms[id] == this
    }

    /** `seal`: close the room for joining and take it off the pending list.
        Only the first call does anything; sealing never comes undone. A
        registered room leaves both registry invariants intact. */
    method Seal(reg: Registry)
      modifies this`isSealed, reg`pending
      ensures isSealed
      ensures old(isSealed) ==> reg.pending == old(reg.pending)
      ensures !old(isSealed) ==> reg.pending == SealPending(old(reg.pending), id)
      ensures old(reg.Valid()) ==> reg.Valid()
      ensures old(reg.Valid()) && RegisteredIn(reg) ==> id !in reg.pending
      ensures old(reg.Valid() && reg.Listed()) && RegisteredIn(reg) ==> reg.Listed()
      ensures clients == old(clients) && ids == old(ids) && owner == old(owner) && game == old(game) && timeout == old(timeout)
    {
      if isSealed {
        return;
      }
      isSealed := true;
      ghost var before := reg.pending;
      reg.pending := Splice1(reg.pending, IndexOf(reg.pending, id));
      if old(reg.Valid()) {
        if id in before {
          SealPendingRemovesId(before, id);
        }
        assert forall k :: k in reg.pending ==> k in before && k != id;
        if old(reg.Listed()) && RegisteredIn(reg) {
          assert id in before;
          assert forall k :: k in reg.rooms && reg.rooms[k] != this ==> reg.rooms[k].isSealed == old(reg.rooms[k].isSealed);
        }
      }
    }

    /** `connect`: on an open room, record (or replace) the player's client,
        append its id if it is new, seal the room once the roster reaches
        `maxPlayers`, and make the player the owner if there is none. A
        sealed room ignores the call. */
    method Connect(reg: Registry, pid: PlayerId, name: string, socket: Handle)
      requires Valid()
      modifies this`clients, this`ids, this`owner, this`isSealed, reg`pending
      ensures Valid()
      ensures old(isSealed) ==>
        && isSealed && clients == old(clients) && ids == old(ids) && owner == old(owner)
        && reg.pending == old(reg.pending)
      ensures !old(isSealed) ==>
        && clients == old(clients)[pid := Client(pid, name, socket)]
        && ids == (if pid in old(ids) then old(ids) else old(ids) + [pid])
        && owner == Some(ids[0])
        && isSealed == (|ids| >= options.maxPlayers)
        && reg.pending == (if isSealed then SealPending(old(reg.pending), id) else old(reg.pending))
      ensures old(ids) <= ids
      ensures old(owner).Some? ==> owner == old(owner)
      ensures old(reg.Valid()) ==> reg.Valid()
      ensures old(reg.Valid() && reg.Listed()) && RegisteredIn(reg) ==> reg.Listed()
    {
      if isSealed {
        return;
      }
      RecordClient(reg, pid, name, socket);
      if |ids| >= options.maxPlayers {
        Seal(reg);
      }
      label recorded:
      if owner.None? {
        owner := Some(pid);
      }
      reg.Kept@recorded();
    }

    /** The first half of `connect`: store the client record and append the
        id if it is new. The roster stays duplicate-free, keeps its first
        entry, and the registry's invariants are untouched. */
    method RecordClient(reg: Registry, pid: PlayerId, name: string, socket: Handle)
      requires Valid()
      modifies this`clients, this`ids
      ensures clients == old(clients)[pid := Client(pid, name, socket)]
      ensures ids == (if pid in old(ids) then old(ids) else old(ids) + [pid])
      ensures Distinct(ids) && forall p :: p in clients ==> p in ids && clients[p].id == p
      ensures old(reg.Valid()) ==> reg.Valid()
      ensures old(reg.Listed()) ==> reg.Listed()
    {
      clients := clients[pid := Client(pid, name, socket)];
      if IndexOf(ids, pid) == -1 {
        ids := ids + [pid];
      }
    }

    /** `disconnect`: drop the player's client (the roster keeps its id); a
        room left without clients is deleted. The source reads the client's
        name first, so the player must be a client. */
    method Disconnect(reg: Registry, pid: PlayerId)
      requires Valid() && pid in clients
      modifies this`clients, this`game, game, reg`rooms, reg`pending
      ensures Valid()
      ensures clients == old(clients) - {pid} && ids == old(ids) && isSealed == old(isSealed)
      ensures clients != map[] ==>
        game == old(game) && reg.rooms == old(reg.rooms) && reg.pending == old(reg.pending)
        && (game != null ==> unchanged(game))
      ensures clients == map[] ==> Deleted(reg, old(game), old(reg.rooms), old(reg.pending))
      ensures old(reg.Valid()) ==> reg.Valid()
      ensures old(reg.Valid() && reg.Listed()) ==> reg.Listed()
    {
      RemoveClient(reg, pid);
      if |clients| == 0 {
        Del(reg);
      }
    }

    /** `delete this.clients[playerID]`: the room stays valid, and so does a
        registry (which looks only at ids, `isSealed` and `pending`). */
    method RemoveClient(reg: Registry, pid: PlayerId)
      requires Valid()
      modifies this`clients
      ensures Valid() && clients == old(clients) - {pid}
      ensures old(reg.Valid()) ==> reg.Valid()
      ensures old(reg.Listed()) ==> reg.Listed()
    {
      clients := clients - {pid};
    }

    /** The state `del` leaves behind: no game (and the old game's timer
        cleared), the room gone from `rooms`, and its id spliced out of
        `pending` if it was there. */
    ghost predicate Deleted(reg: Registry, oldGame: Game?, oldRooms: map<RoomId, Room>, oldPending: seq<RoomId>)
      reads this, reg, oldGame
    {
      && game == null
      && (oldGame != null ==> oldGame.deadline == None)
      && reg.rooms == oldRooms - {id}
      && reg.pending == (if id in oldPending then SealPending(oldPending, id) else oldPending)
    }

    /** The first step of `del`: a game has its timer cleared and is dropped.
        Nothing the registry's invariants look at changes. */
    method DropGame(reg: Registry)
      requires Valid()
      modifies this`game, game
      ensures Valid() && game == null
      ensures old(game) != null ==> old(game).deadline == None
      ensures clients == old(clients) && ids == old(ids) && isSealed == old(isSealed)
      ensures old(reg.Valid()) ==> reg.Valid()
      ensures old(reg.Listed()) ==> reg.Listed()
    {
      if game != null {
        game.deadline := None;
        game := null;
      }
    }

    /** `del`: stop and drop the game, remove the room from the registry. */
    method Del(reg: Registry)
      requires Valid()
      modifies this`game, game, reg`rooms, reg`pending
      ensures Valid()
      ensures Deleted(reg, old(game), old(reg.rooms), old(reg.pending))
      ensures clients == old(clients) && ids == old(ids) && isSealed == old(isSealed)
      ensures Distinct(old(reg.pending)) ==> id !in reg.pending
      ensures old(reg.Valid()) ==> reg.Valid()
      ensures old(reg.Valid() && reg.Listed()) ==> reg.Listed()
    {
      DropGame(reg);
      ghost var before := reg.pending;
      reg.rooms := reg.rooms - {id};
      if IndexOf(reg.pending, id) > -1 {
        reg.pending := Splice1(reg.pending, IndexOf(reg.pending, id));
        if Distinct(before) {
          SealPendingRemovesId(before, id);
        }
      }
      if old(reg.Valid()) {
        assert forall k :: k in reg.pending ==> k in before && k != id;
      }
    }

    /** `getPlayerList`. */
    function GetPlayerList(): Option<seq<string>>
      reads this
    {
      PlayerNames(ids, clients)
    }

    /** `setRoomTimeout`: the previous room timer is replaced by one for
        `seconds`. */
    method SetRoomTimeout(seconds: nat)
      modifies this`timeout
      ensures timeout == Some(seconds)
      ensures clients == old(clients) && ids == old(ids) && owner == old(owner) && isSealed == old(isSealed) && game == old(game)
    {
      timeout := Some(seconds);
    }

    /** `startGame`: only a sealed room without a game gets one, with roles
        dealt to its connected players; it returns what each player is told. */
    method StartGame() returns (infos: map<PlayerId, StartInfo>)
      requires Valid()
      modifies this`game
      ensures Valid()
      ensures clients == old(clients) && ids == old(ids) && owner == old(owner) && isSealed == old(isSealed) && timeout == old(timeout)
      ensures !isSealed || old(game) != null ==> game == old(game) && infos == map[]
      ensures isSealed && old(game) == null ==> game != null && fresh(game) && JustStarted(infos)
    {
      if !isSealed {
        return map[];
      }
      var g;
      g, infos := NewGame(game, ids, clients.Keys, options);
      game := g;
    }

    /** The room holds a game that has just been started: the first night,
        no ballots, nobody exposed, roles dealt over the connected clients,
        the first-night deadline, and `infos` the players' start messages. */
    ghost predicate JustStarted(infos: map<PlayerId, StartInfo>)
      reads this`game, this`clients, game
    {
      && game != null && game.state == Initial && game.votes == map[] && game.detExpPlayers == []
      && game.RolesAssigned(clients.Keys)
      && game.deadline == Some(options.nightTimeout)
      && infos == game.StartInfos(clients.Keys)
    }

    /** The game timer firing: the game moves to its next phase, and a game
        that has been won is dropped from the room. */
    method AdvancePhase() returns (u: Update)
      requires Valid() && game != null
      modifies this`game, game`state, game`elimPlayers, game`votes, game`deadline
      ensures Valid()
      ensures old(game).state == NextState(old(game.state)) && u.state == old(game).state
      ensures old(game).roles == old(game.roles)
      ensures !old(game.state.isVoting) ==> u.outvoted == None && old(game).votes == old(game.votes)
      ensures old(game.state.isVoting) ==>
        old(game).votes == map[] && (u.outvoted == None <==> old(game.votes) == map[])
      ensures u.outvoted.None? ==> old(game).elimPlayers == old(game.elimPlayers)
      ensures u.outvoted.Some? ==>
        && 0 <= u.outvoted.value.playerIndex < |ids|
        && IsTopCandidate(old(game.votes), ids[u.outvoted.value.playerIndex])
        && u.outvoted.value.role == RoleIn(old(game.roles), ids[u.outvoted.value.playerIndex])
        && old(game).elimPlayers == old(game.elimPlayers) + [ids[u.outvoted.value.playerIndex]]
      ensures u.winner == WinnerOf(old(game).roles, old(game).elimPlayers)
      ensures u.winner.Some? ==> game == null && old(game).deadline == None
      ensures u.winner.None? ==>
        game == old(game) && game.deadline == Some(PhaseTimeout(game.state, options))
    {
      u := game.NextPhase();
      if u.winner.Some? {
        game := null;
      }
    }
  }

  /** The module state of mafia/rooms.js: the `rooms` table and the `pending`
      list of rooms open for joining. */
  class Registry {
    var rooms: map<RoomId, Room>
    var pending: seq<RoomId>

    /** Every room is filed under its own id; a pending id names a registered,
        open room, and no id is pending twice. */
    ghost predicate Valid()
      reads this`rooms, this`pending, rooms.Values`isSealed
    {
      && (forall k :: k in rooms ==> rooms[k].id == k)
      && Distinct(pending)
      && (forall k :: k in pending ==> k in rooms && !rooms[k].isSealed)
    }

    /** The converse of the last clause of `Valid`: every registered open room
        is pending. Creating, finding, joining and deleting rooms keep it, and
        so does sealing a registered room. Sealing a room that the room timer
        has already deleted splices out some other id and can break it. */
    ghost predicate Listed()
      reads this`rooms, this`pending, rooms.Values`isSealed
    {
      forall k :: k in rooms && !rooms[k].isSealed ==> k in pending
    }

    /** Both invariants look only at `rooms`, `pending` and the rooms' seals,
        so a step that leaves those alone keeps them. */
    twostate lemma Kept()
      requires rooms == old(rooms) && pending == old(pending)
      requires forall k :: k in rooms ==> rooms[k].isSealed == old(rooms[k].isSealed)
      ensures old(Valid()) ==> Valid()
      ensures old(Listed()) ==> Listed()
    {
    }

    constructor ()
      ensures Valid() && Listed() && rooms == map[] && pending == []
    {
      rooms := map[];
      pending := [];
    }

    /** `newRoomID`: draw an id of `IdLength` characters from the alphabet,
        register a new open room under it, make it pending, and start its
        room timer. Nothing rules out drawing an id already in use; when the
        id is not already pending the invariant survives. */
    method NewRoomID(options: Options, seconds: nat) returns (id: RoomId)
      modifies this
      ensures |id| == IdLength && forall k :: 0 <= k < |id| ==> id[k] in Alphabet
      ensures id in rooms && fresh(rooms[id]) && rooms == old(rooms)[id := rooms[id]]
      ensures pending == old(pending) + [id]
      ensures rooms[id].Valid() && rooms[id].id == id && rooms[id].options == options
      ensures !rooms[id].isSealed && rooms[id].clients == map[] && rooms[id].ids == []
      ensures rooms[id].game == null && rooms[id].timeout == Some(seconds)
      ensures old(Valid()) && id !in old(pending) ==> Valid()
      ensures old(Listed()) ==> Listed()
    {
      id := "";
      var i := 0;
      while i < IdLength
        invariant 0 <= i <= IdLength && |id| == i
        invariant forall k :: 0 <= k < |id| ==> id[k] in Alphabet
      {
        var c :| 0 <= c < |Alphabet|;
        id := id + [Alphabet[c]];
        i := i + 1;
      }
      var room := new Room(id, options);
      rooms := rooms[id := room];
      pending := pending + [id];
      room.SetRoomTimeout(seconds);
    }

    /** `findRoomID`: one of the pending rooms when there is any, otherwise a
        new room. */
    method FindRoomID(options: Options, seconds: nat) returns (id: RoomId)
      modifies this
      ensures old(pending) != [] ==> id in pending && rooms == old(rooms) && pending == old(pending)
      ensures old(pending) == [] ==>
        && |id| == IdLength && (forall k :: 0 <= k < |id| ==> id[k] in Alphabet)
        && id in rooms && fresh(rooms[id]) && rooms == old(rooms)[id := rooms[id]] && pending == [id]
        && rooms[id].Valid() && rooms[id].id == id && rooms[id].options == options
        && !rooms[id].isSealed && rooms[id].clients == map[] && rooms[id].ids == []
        && rooms[id].game == null && rooms[id].timeout == Some(seconds)
      ensures old(Valid()) ==> Valid()
      ensures old(Listed()) ==> Listed()
    {
      if |pending| > 0 {
        var k :| 0 <= k < |pending|;
        id := pending[k];
      } else {
        id := NewRoomID(options, seconds);
      }
    }
  }
}
