/** The earlier room prototype (game/rooms.js).

    The same shape as the later rooms: clients by id, the ids in join order,
    the first player as owner, sealing once full, and a registry of rooms with
    a `pending` list. The differences are kept: `connect` appends the id even
    when it is already there, there is no disconnect or delete, the game is
    the stub of game/core.js (present or absent, carrying no information),
    every new room gets the module's fixed options, and `seal` searches
    `pending` (a list of ids) for the room object itself. */
module Prototype {
  import opened JsCore

  type PlayerId = string
  type RoomId = string

  /** `ID_LENGTH` and the characters of a room id. */
  const IdLength: nat := 8
  const Alphabet: string := "0123456789abcdefghijklmnopqrstuvwxyzABCDEFGHIJKLMNOPQRSTUVWXYZ"

  /** The options of the prototype: the player limit, the mafia coefficient
      and three phase durations. */
  datatype ProtoOptions = ProtoOptions(
    maxPlayers: nat, mafiaCoeff: nat, dayTimeout: nat, nightTimeout: nat, detectiveTimeout: nat)

  /** The module-wide options every new room is given. */
  const FixedOptions: ProtoOptions := ProtoOptions(2, 4, 60, 30, 20)

  /** A client record: `{id, playerName}`. */
  datatype ProtoClient = ProtoClient(id: PlayerId, playerName: string)

  /** What the stub game's `getInfo` returns: an empty object. */
  datatype GameInfo = EmptyInfo

  /** What `pending.splice(pending.indexOf(this), 1)` leaves: `pending` holds
      ids, never the room object, so `indexOf` yields -1 and the splice
      removes the last pending id, whichever room it belongs to. */
  function ProtoSealPending(pending: seq<RoomId>): (r: seq<RoomId>)
    ensures pending != [] ==> r == pending[..|pending| - 1]
    ensures pending == [] ==> r == []
  {
    SpliceLastOrNothing(pending);
    Splice1(pending, -1)
  }

  /** `Splice1(s, -1)` drops the last element (an empty sequence stays empty). */
  lemma SpliceLastOrNothing(s: seq<RoomId>)
    ensures s != [] ==> Splice1(s, -1) == s[..|s| - 1]
    ensures s == [] ==> Splice1(s, -1) == []
  {
    if s != [] {
      SpliceMinusOne(s);
    }
  }

  /** Sealing the first of two pending rooms leaves that room pending and
      takes the other one off the list. */
  lemma ProtoSealKeepsSealedRoom()
    ensures ProtoSealPending(["a", "b"]) == ["a"]
    ensures "a" in ProtoSealPending(["a", "b"]) && "b" !in ProtoSealPending(["a", "b"])
  {
  }

  /** In general a pending room that is not the last one stays pending after
      it is sealed, and the last pending room is taken off the list. */
  lemma ProtoSealMissesOwnId(pending: seq<RoomId>, id: RoomId)
    requires Distinct(pending) && id in pending && id != pending[|pending| - 1]
    ensures id in ProtoSealPending(pending)
    ensures pending[|pending| - 1] !in ProtoSealPending(pending)
  {
    var i :| 0 <= i < |pending| && pending[i] == id;
    assert ProtoSealPending(pending)[i] == id;
  }

  class ProtoRoom {
    const id: RoomId
    const options: ProtoOptions
    var clients: map<PlayerId, ProtoClient>
    /** The ids in join order; a player who connects twice appears twice. */
    var ids: seq<PlayerId>
    var owner: Option<PlayerId>
    var isSealed: bool
    var hasGame: bool

    ghost predicate Valid()
      reads this
    {
      && (forall p :: p in clients <==> p in ids)
      && (forall p :: p in clients ==> clients[p].id == p)
      && owner == (if ids == [] then None else Some(ids[0]))
      && (ids != [] && |ids| >= options.maxPlayers ==> isSealed)
      && (hasGame ==> isSealed)
    }

    constructor (id: RoomId, options: ProtoOptions)
      ensures Valid()
      ensures this.id == id && this.options == options
      ensures clients == map[] && ids == [] && owner == None && !isSealed && !hasGame
    {
      this.id := id;
      this.options := options;
      clients := map[];
      ids := [];
      owner := None;
      isSealed := false;
      hasGame := false;
    }

    /** `seal`: the first call closes the room and splices `pending` as
        written; later calls do nothing. */
    method Seal(reg: ProtoRegistry)
      modifies this`isSealed, reg`pending
      ensures isSealed
      ensures reg.pending == if old(isSealed) then old(reg.pending) else ProtoSealPending(old(reg.pending))
      ensures old(reg.Valid()) ==> reg.Valid()
    {
      if isSealed {
        return;
      }
      isSealed := true;
      reg.pending := Splice1(reg.pending, -1);
    }

    /** `connect`: on an open room, record the client, append the id, seal
        once the roster reaches `maxPlayers`, and make the player the owner if
        there is none. A sealed room ignores the call. */
    method Connect(reg: ProtoRegistry, pid: PlayerId, name: string)
      requires Valid()
      modifies this`clients, this`ids, this`owner, this`isSealed, reg`pending
      ensures Valid()
      ensures old(isSealed) ==>
        && isSealed && clients == old(clients) && ids == old(ids) && owner == old(owner)
        && reg.pending == old(reg.pending)
      ensures !old(isSealed) ==>
        && clients == old(clients)[pid := ProtoClient(pid, name)]
        && ids == old(ids) + [pid]
        && owner == Some(ids[0])
        && isSealed == (|ids| >= options.maxPlayers)
        && reg.pending == (if isSealed then ProtoSealPending(old(reg.pending)) else old(reg.pending))
      ensures old(owner).Some? ==> owner == old(owner)
      ensures old(reg.Valid()) ==> reg.Valid()
    {
      if isSealed {
        return;
      }
      clients := clients[pid := ProtoClient(pid, name)];
      ids := ids + [pid];
      if |ids| >= options.maxPlayers {
        Seal(reg);
      }
      if owner.None? {
        owner := Some(pid);
      }
    }

    /** `startGame`: a sealed room gets the stub game if it has none; an open
        room is left alone. */
    method StartGame()
      requires Valid()
      modifies this`hasGame
      ensures Valid()
      ensures hasGame == (old(hasGame) || isSealed)
    {
      if !isSealed {
        return;
      }
      if !hasGame {
        hasGame := true;
      }
    }

    /** `getPlayerList`: the names of the roster in join order (a player who
        joined twice is named twice). */
    function GetPlayerList(): (r: seq<string>)
      requires Valid()
      reads this
      ensures |r| == |ids|
      ensures forall i :: 0 <= i < |ids| ==> r[i] == clients[ids[i]].playerName
    {
      NamesOf(ids, clients)
    }

    /** `getGameInfo`: the stub game's (empty) information, or nothing
        without a game. */
    function GetGameInfo(): (r: Option<GameInfo>)
      reads this
      ensures r.None? <==> !hasGame
    {
      if hasGame then Some(EmptyInfo) else None
    }
  }

  /** The names of `ids`, every one of which is a client. */
  function NamesOf(ids: seq<PlayerId>, clients: map<PlayerId, ProtoClient>): (r: seq<string>)
    requires forall p :: p in ids ==> p in clients
    ensures |r| == |ids|
    ensures forall i :: 0 <= i < |ids| ==> r[i] == clients[ids[i]].playerName
  {
    if ids == [] then []
    else NamesOf(ids[..|ids| - 1], clients) + [clients[ids[|ids| - 1]].playerName]
  }

  /** The module state of game/rooms.js. */
  class ProtoRegistry {
    var rooms: map<RoomId, ProtoRoom>
    var pending: seq<RoomId>

    /** Every room is filed under its own id and every pending id names a
        registered room. (Because of `seal`, a pending room can be sealed.) */
    ghost predicate Valid()
      reads this, rooms.Values
    {
      && (forall k :: k in rooms ==> rooms[k].id == k)
      && (forall k :: k in pending ==> k in rooms)
    }

    constructor ()
      ensures Valid() && rooms == map[] && pending == []
    {
      rooms := map[];
      pending := [];
    }

    /** `newRoomID`: draw an id of `IdLength` characters from the alphabet,
        register a new room with the fixed options under it and make it
        pending. */
    method NewRoomID() returns (id: RoomId)
      modifies this
      ensures |id| == IdLength && forall k :: 0 <= k < |id| ==> id[k] in Alphabet
      ensures id in rooms && fresh(rooms[id]) && rooms == old(rooms)[id := rooms[id]]
      ensures pending == old(pending) + [id]
      ensures rooms[id].Valid() && rooms[id].id == id && rooms[id].options == FixedOptions
      ensures !rooms[id].isSealed && rooms[id].clients == map[] && rooms[id].ids == []
      ensures old(Valid()) ==> Valid()
    {
      id := "";
      var i := 0;
      while i < IdLength
        invariant 0 <= i <= IdLength && |id| == i
        invariant forall k :: 0 <= k < |id| ==> id[k] in Alphabet
      {
        var c :| 0 <= c < |Alphabet|;
        id := id + [Alphabet[c]];
        i := i + 1;
      }
      var room := new ProtoRoom(id, FixedOptions);
      rooms := rooms[id := room];
      pending := pending + [id];
    }

    /** `findRoomID`: one of the pending rooms when there is any, otherwise a
        new room. */
    method FindRoomID() returns (id: RoomId)
      modifies this
      ensures old(pending) != [] ==> id in pending && rooms == old(rooms) && pending == old(pending)
      ensures old(pending) == [] ==>
        && |id| == IdLength && (forall k :: 0 <= k < |id| ==> id[k] in Alphabet)
        && id in rooms && fresh(rooms[id]) && rooms == old(rooms)[id := rooms[id]] && pending == [id]
        && rooms[id].Valid() && rooms[id].id == id && rooms[id].options == FixedOptions
        && !rooms[id].isSealed && rooms[id].clients == map[] && rooms[id].ids == []
      ensures old(Valid()) ==> Valid()
    {
      if |pending| > 0 {
        var k :| 0 <= k < |pending|;
        id := pending[k];
      } else {
        id := NewRoomID();
      }
    }
  }
}
