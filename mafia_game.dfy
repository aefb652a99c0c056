/** The phase and role engine of one game of mafia (mafia/game.js).

    Everything is keyed by player id: the role table, the list of eliminated
    players and the ballot box. The game is handed its room's roster (`ids`,
    in join order) when it is created: it reads the roster only through the
    room's index lookups, and a room that has a game is sealed, so its roster
    can no longer change. */
module MafiaGame {
  import opened JsCore

  type PlayerId = string

  type Positive = n: nat | n >= 1 witness 1

  /** The room options the engine reads: the player limit, the mafia
      coefficient (one mafioso per `mafiaCoeff` connected players), the three
      phase durations in seconds, and whether the detective role is enabled
      (`optionalRoles.detective`). */
  datatype Options = Options(
    maxPlayers: nat,
    mafiaCoeff: Positive,
    dayTimeout: nat,
    nightTimeout: nat,
    voteTimeout: nat,
    detective: bool)

  /** A role tag. `NoRole` is the `null` role of a player who had left before
      the game started; looking up an id that has no entry reads the same. */
  datatype Role = NoRole | Civilian | Mafia | Detective

  datatype Winner = CivilianWin | MafiaWin

  /** The phase: day or night, whether a vote is open, and the move counter. */
  datatype State = State(isDay: bool, isVoting: bool, move: nat)

  /** The player a vote put out, by roster index, with the role revealed. */
  datatype Outvoted = Outvoted(playerIndex: int, role: Role)

  /** One entry of a viewer's list of players whose role it knows. */
  datatype Exposure = Exposure(role: Role, eliminated: bool)

  /** What `gameStarted` tells one player: its role, and the mafia's roster
      indices when it is a mafioso. */
  datatype StartInfo = StartInfo(role: Role, mafiaMembers: Option<seq<int>>)

  /** What a phase change announces to the room. */
  datatype Update = Update(state: State, outvoted: Option<Outvoted>, winner: Option<Winner>)

  // ---------------------------------------------------------------------------
  // The phase machine

  /** A new game starts on the mafia-introduction night. */
  const Initial: State := State(false, false, 0)

  /** The in-place update `nextPhase` makes to the phase state. A vote closes
      by flipping day and night; otherwise a vote opens, except on the
      introduction night (move 0) and on the first day, which flip directly.
      Entering a day with no vote open starts a new move. */
  function NextState(s: State): State {
    var t := Toggled(s);
    if t.isDay && !t.isVoting then t.(move := t.move + 1) else t
  }

  /** The first half of that update: closing or opening the vote, or
      flipping day and night, before the move count is advanced. */
  function Toggled(s: State): (r: State)
    ensures r.move == s.move
    ensures s.isVoting ==> !r.isVoting && r.isDay != s.isDay
    ensures !s.isVoting ==> (r.isVoting <==> s.move != 0 && !(s.move == 1 && s.isDay))
    ensures !s.isVoting ==> (r.isDay == s.isDay <==> r.isVoting)
  {
    if s.isVoting then s.(isVoting := false, isDay := !s.isDay)
    else if s.move == 0 || (s.move == 1 && s.isDay) then s.(isDay := !s.isDay)
    else s.(isVoting := true)
  }

  /** The duration of the deadline scheduled on entering phase `s`. */
  function PhaseTimeout(s: State, o: Options): nat {
    if s.isVoting then o.voteTimeout
    else if s.isDay then o.dayTimeout
    else o.nightTimeout
  }

  /** The phase after `k` phase changes from the start of a game. */
  function StateAfter(k: nat): State {
    if k == 0 then Initial else NextState(StateAfter(k - 1))
  }

  /** The phase sequence written out: night 0, day 1, then the four-phase cycle
      night, night vote, day, day vote, the move counting the days. */
  function Cycle(k: nat): State {
    if k == 0 then State(false, false, 0)
    else if k == 1 then State(true, false, 1)
    else
      var j, r := (k - 2) / 4, (k - 2) % 4;
      if r == 0 then State(false, false, 1 + j)
      else if r == 1 then State(false, true, 1 + j)
      else if r == 2 then State(true, false, 2 + j)
      else State(true, true, 2 + j)
  }

  lemma {:induction false} StateAfterIsCycle(k: nat)
    ensures StateAfter(k) == Cycle(k)
  {
    if k >= 3 {
      StateAfterIsCycle(k - 1);
      var j, r := (k - 3) / 4, (k - 3) % 4;
      assert k - 3 == 4 * j + r;
      if r == 3 {
        assert (k - 2) / 4 == j + 1 && (k - 2) % 4 == 0;
      } else {
        assert (k - 2) / 4 == j && (k - 2) % 4 == r + 1;
      }
    } else if k > 0 {
      StateAfterIsCycle(k - 1);
    }
  }

  /** With no votes cast the first phases are night 0, day 1, night 1,
      night-1 vote, day 2, day-2 vote, night 2, night-2 vote, day 3. */
  lemma OpeningPhases()
    ensures StateAfter(1) == State(true, false, 1)
    ensures StateAfter(2) == State(false, false, 1)
    ensures StateAfter(3) == State(false, true, 1)
    ensures StateAfter(4) == State(true, false, 2)
    ensures StateAfter(5) == State(true, true, 2)
    ensures StateAfter(6) == State(false, false, 2)
    ensures StateAfter(7) == State(false, true, 2)
    ensures StateAfter(8) == State(true, false, 3)
  {
    StateAfterIsCycle(5);
    StateAfterIsCycle(6);
    StateAfterIsCycle(7);
    StateAfterIsCycle(8);
  }

  /** `move` grows by one exactly when the new phase is a day without a vote,
      and by nothing otherwise. */
  lemma MoveCountsNewDays(s: State)
    ensures NextState(s).move == s.move + (if NextState(s).isDay && !NextState(s).isVoting then 1 else 0)
  {
  }

  /** The introduction night and the first day never open a vote: they only
      flip day and night. */
  lemma NoVoteOnIntroductionOrFirstDay(s: State)
    requires !s.isVoting && (s.move == 0 || (s.move == 1 && s.isDay))
    ensures !NextState(s).isVoting && NextState(s).isDay == !s.isDay
  {
  }

  /** In a game that started normally, a night vote happens from move 1 on and
      a day vote from move 2 on. */
  lemma {:induction false} VotesStartLate(k: nat)
    ensures StateAfter(k).isVoting ==> StateAfter(k).move >= 1
    ensures StateAfter(k).isVoting && StateAfter(k).isDay ==> StateAfter(k).move >= 2
    ensures StateAfter(k).isDay || StateAfter(k).isVoting || StateAfter(k).move >= 1 || k == 0
  {
    StateAfterIsCycle(k);
  }

  // ---------------------------------------------------------------------------
  // Roles and the winner

  /** `roles[p]`, with a missing entry read as no role. */
  function RoleIn(roles: map<PlayerId, Role>, p: PlayerId): Role {
    if p in roles then roles[p] else NoRole
  }

  /** The players holding role `r`. */
  ghost function Holders(roles: map<PlayerId, Role>, r: Role): set<PlayerId> {
    set p | p in roles && roles[p] == r
  }

  lemma HoldersAfter(roles: map<PlayerId, Role>, p: PlayerId, r: Role, x: Role)
    requires p in roles
    ensures Holders(roles[p := r], x) == (Holders(roles, x) - {p}) + (if r == x then {p} else {})
  {
  }

  /** The first loop of `assignRoles` (game.js): walking the roster, every
      player who has left gets no role and joins the eliminated, every
      connected one starts as a civilian. */
  method SeatRoster(ids: seq<PlayerId>, connected: set<PlayerId>)
    returns (seated: map<PlayerId, Role>, left: seq<PlayerId>, civilians: seq<PlayerId>)
    ensures seated == Seating(ids, connected)
    ensures left == Outside(ids, connected) && civilians == Within(ids, connected)
  {
    civilians := [];
    seated := map[];
    left := [];
    var i := 0;
    while i < |ids|
      invariant 0 <= i <= |ids|
      invariant seated == Seating(ids[..i], connected)
      invariant civilians == Within(ids[..i], connected)
      invariant left == Outside(ids[..i], connected)
    {
      var p := ids[i];
      PrefixFilters(ids, i, connected);
      if p !in connected {
        seated := seated[p := NoRole];
        left := left + [p];
      } else {
        seated := seated[p := Civilian];
        civilians := civilians + [p];
      }
      assert seated == Seating(ids[..i + 1], connected);
      assert left == Outside(ids[..i + 1], connected);
      assert civilians == Within(ids[..i + 1], connected);
      i := i + 1;
    }
    assert ids[..i] == ids;
  }

  /** The role table the first loop builds from the players `s`: everyone in
      `s` is seated, as a civilian when connected and with no role otherwise
      (`SeatingMeaning`). */
  function Seating(s: seq<PlayerId>, c: set<PlayerId>): map<PlayerId, Role> {
    if s == [] then map[]
    else
      var n := |s| - 1;
      Seating(s[..n], c)[s[n] := if s[n] in c then Civilian else NoRole]
  }

  /** Every player of `s` is seated, and no one else; the connected ones as
      civilians, the others with no role. */
  lemma {:induction false} SeatingMeaning(s: seq<PlayerId>, c: set<PlayerId>)
    ensures forall p :: p in Seating(s, c) <==> p in s
    ensures forall p :: p in Seating(s, c) ==> Seating(s, c)[p] == if p in c then Civilian else NoRole
  {
    if s != [] {
      var n := |s| - 1;
      assert s == s[..n] + [s[n]];
      SeatingMeaning(s[..n], c);
    }
  }

  /** What the first loop's role table means: the roster is its key set, the
      players who left are exactly those without a role, and no one is a
      mafioso or the detective yet. */
  lemma SeatedRoles(ids: seq<PlayerId>, connected: set<PlayerId>)
    ensures Seating(ids, connected).Keys == (set p | p in ids)
    ensures Holders(Seating(ids, connected), NoRole) == (set p | p in ids) - connected
    ensures Holders(Seating(ids, connected), Mafia) == {}
    ensures Holders(Seating(ids, connected), Detective) == {}
    ensures forall p :: p in Within(ids, connected) <==>
      p in Seating(ids, connected) && Seating(ids, connected)[p] == Civilian
  {
    SeatingMeaning(ids, connected);
    FiltersMembers(ids, connected);
    var seated := Seating(ids, connected);
    assert Holders(seated, Mafia) == {};
    assert Holders(seated, Detective) == {};
  }

  /** The second loop of `assignRoles`: `count` civilians, drawn one by one
      from those not yet drawn, become mafiosi. */
  method DrawMafia(roles0: map<PlayerId, Role>, civilians0: seq<PlayerId>, count: nat)
    returns (roles: map<PlayerId, Role>, civilians: seq<PlayerId>)
    requires Distinct(civilians0) && count <= |civilians0|
    requires forall p :: p in civilians0 <==> p in roles0 && roles0[p] == Civilian
    requires Holders(roles0, Mafia) == {}
    ensures roles.Keys == roles0.Keys
    ensures Holders(roles, NoRole) == Holders(roles0, NoRole)
    ensures Holders(roles, Detective) == Holders(roles0, Detective)
    ensures |Holders(roles, Mafia)| == count
    ensures Distinct(civilians) && |civilians| == |civilians0| - count
    ensures forall p :: p in civilians <==> p in roles && roles[p] == Civilian
  {
    roles, civilians := roles0, civilians0;
    var n := 0;
    while n < count
      invariant 0 <= n <= count
      invariant Distinct(civilians) && |civilians| == |civilians0| - n
      invariant roles.Keys == roles0.Keys
      invariant Holders(roles, NoRole) == Holders(roles0, NoRole)
      invariant Holders(roles, Detective) == Holders(roles0, Detective)
      invariant |Holders(roles, Mafia)| == n
      invariant forall p :: p in civilians <==> p in roles && roles[p] == Civilian
    {
      var j :| 0 <= j < |civilians|;
      var p := civilians[j];
      MafiaStep(roles, civilians, p);
      roles := roles[p := Mafia];
      civilians := Splice1(civilians, IndexOf(civilians, p));
      n := n + 1;
    }
  }

  /** One draw of the mafia loop: the drawn civilian becomes a mafioso and
      leaves the pool; no other role changes. */
  lemma MafiaStep(roles: map<PlayerId, Role>, civilians: seq<PlayerId>, p: PlayerId)
    requires Distinct(civilians) && p in civilians
    requires forall q :: q in civilians <==> q in roles && roles[q] == Civilian
    ensures roles[p := Mafia].Keys == roles.Keys
    ensures Holders(roles[p := Mafia], NoRole) == Holders(roles, NoRole)
    ensures Holders(roles[p := Mafia], Detective) == Holders(roles, Detective)
    ensures |Holders(roles[p := Mafia], Mafia)| == |Holders(roles, Mafia)| + 1
    ensures Distinct(Splice1(civilians, IndexOf(civilians, p)))
    ensures |Splice1(civilians, IndexOf(civilians, p))| == |civilians| - 1
    ensures forall q :: q in Splice1(civilians, IndexOf(civilians, p)) <==>
      q in roles[p := Mafia] && roles[p := Mafia][q] == Civilian
  {
    Promote(roles, p, Mafia);
    SpliceIndexOf(civilians, p);
    SpliceDistinct(civilians, IndexOf(civilians, p));
  }

  /** Giving a civilian the role `r` (not civilian) moves that player from
      the civilians to the holders of `r` and changes no other holder set. */
  lemma Promote(roles: map<PlayerId, Role>, p: PlayerId, r: Role)
    requires p in roles && roles[p] == Civilian && r != Civilian
    ensures roles[p := r].Keys == roles.Keys
    ensures forall x :: x != r && x != Civilian ==> Holders(roles[p := r], x) == Holders(roles, x)
    ensures |Holders(roles[p := r], r)| == |Holders(roles, r)| + 1
    ensures forall q :: q in roles[p := r] && roles[p := r][q] == Civilian <==>
      q in roles && roles[q] == Civilian && q != p
  {
    forall x | x != r && x != Civilian ensures Holders(roles[p := r], x) == Holders(roles, x) {
      HoldersAfter(roles, p, r, x);
    }
    HoldersAfter(roles, p, r, r);
    assert p !in Holders(roles, r);
  }

  /** The detective step of `assignRoles`: when enabled and a civilian is
      left, one of them is drawn to be the detective. */
  method DrawDetective(roles0: map<PlayerId, Role>, civilians: seq<PlayerId>, enabled: bool)
    returns (roles: map<PlayerId, Role>)
    requires forall p :: p in civilians ==> p in roles0 && roles0[p] == Civilian
    ensures roles.Keys == roles0.Keys
    ensures Holders(roles, NoRole) == Holders(roles0, NoRole)
    ensures Holders(roles, Mafia) == Holders(roles0, Mafia)
    ensures |Holders(roles, Detective)| ==
      |Holders(roles0, Detective)| + (if enabled && |civilians| > 0 then 1 else 0)
  {
    roles := roles0;
    if enabled && |civilians| > 0 {
      var j :| 0 <= j < |civilians|;
      var p := civilians[j];
      Promote(roles, p, Detective);
      roles := roles[p := Detective];
    }
  }

  /** The three loops of `assignRoles` (game.js) on the roster `ids`, of
      whom `connected` are still connected: the role table and the players
      eliminated for having left. */
  method DealRoles(ids: seq<PlayerId>, connected: set<PlayerId>, mafiaCoeff: Positive, detective: bool)
    returns (roles: map<PlayerId, Role>, left: seq<PlayerId>)
    requires Distinct(ids) && connected <= (set p | p in ids)
    ensures roles.Keys == (set p | p in ids)
    ensures forall p :: p in ids ==> (roles[p] == NoRole <==> p !in connected)
    ensures left == Outside(ids, connected)
    ensures forall p :: p in left <==> p in ids && p !in connected
    ensures |Holders(roles, Mafia)| == |connected| / mafiaCoeff
    ensures |Holders(roles, Detective)| ==
      (if detective && |connected| / mafiaCoeff < |connected| then 1 else 0)
  {
    var seated, civilians;
    seated, left, civilians := SeatRoster(ids, connected);
    SeatedRoles(ids, connected);
    FiltersMembers(ids, connected);
    assert (set p | p in civilians) == connected;
    FiltersDistinct(ids, connected);
    DistinctSize(civilians);
    DivAtMost(|connected|, mafiaCoeff);
    var maxMafia: nat := |connected| / mafiaCoeff;
    var drawn, pool := DrawMafia(seated, civilians, maxMafia);
    roles := DrawDetective(drawn, pool, detective);
    forall p | p in ids
      ensures roles[p] == NoRole <==> p !in connected
    {
      assert p in Holders(roles, NoRole) <==> roles[p] == NoRole;
    }
  }

  /** Surviving mafiosi. */
  ghost function AliveMafia(roles: map<PlayerId, Role>, elim: seq<PlayerId>): set<PlayerId> {
    set p | p in roles && p !in elim && roles[p] == Mafia
  }

  /** Surviving players of every other role (including no role). */
  ghost function AliveOthers(roles: map<PlayerId, Role>, elim: seq<PlayerId>): set<PlayerId> {
    set p | p in roles && p !in elim && roles[p] != Mafia
  }

  /** The survivors among `within` whose being a mafioso is `mafia`. */
  ghost function AliveIn(roles: map<PlayerId, Role>, elim: seq<PlayerId>, within: set<PlayerId>, mafia: bool): set<PlayerId> {
    set p | p in within && p in roles && p !in elim && (roles[p] == Mafia) == mafia
  }

  lemma AliveInGrow(roles: map<PlayerId, Role>, elim: seq<PlayerId>, within: set<PlayerId>, p: PlayerId, mafia: bool)
    requires p in roles && p !in within
    ensures |AliveIn(roles, elim, within + {p}, mafia)| ==
      |AliveIn(roles, elim, within, mafia)| + (if p !in elim && (roles[p] == Mafia) == mafia then 1 else 0)
  {
    AliveInAdd(roles, elim, within, p, mafia);
    assert p !in AliveIn(roles, elim, within, mafia);
  }

  lemma AliveInAdd(roles: map<PlayerId, Role>, elim: seq<PlayerId>, within: set<PlayerId>, p: PlayerId, mafia: bool)
    requires p in roles
    ensures AliveIn(roles, elim, within + {p}, mafia) ==
      AliveIn(roles, elim, within, mafia) + (if p !in elim && (roles[p] == Mafia) == mafia then {p} else {})
  {
  }

  /** The winning side: the civilians once no mafioso survives, the mafia
      once the survivors of the other roles are no more than the mafiosi. */
  ghost function WinnerOf(roles: map<PlayerId, Role>, elim: seq<PlayerId>): Option<Winner> {
    if |AliveMafia(roles, elim)| == 0 then Some(CivilianWin)
    else if |AliveOthers(roles, elim)| <= |AliveMafia(roles, elim)| then Some(MafiaWin)
    else None
  }

  /** One mafioso against two civilians: no winner while all live; the
      civilians win once the mafioso is out; the mafia win once one civilian
      is out, a tie of one against one going to the mafia. */
  lemma WinnerOfOneAgainstTwo(m: PlayerId, c1: PlayerId, c2: PlayerId)
    requires m != c1 && m != c2 && c1 != c2
    ensures WinnerOf(map[m := Mafia, c1 := Civilian, c2 := Civilian], []) == None
    ensures WinnerOf(map[m := Mafia, c1 := Civilian, c2 := Civilian], [m]) == Some(CivilianWin)
    ensures WinnerOf(map[m := Mafia, c1 := Civilian, c2 := Civilian], [c1]) == Some(MafiaWin)
  {
    var roles := map[m := Mafia, c1 := Civilian, c2 := Civilian];
    assert AliveMafia(roles, []) == {m};
    assert AliveOthers(roles, []) == {c1, c2};
    assert AliveMafia(roles, [m]) == {};
    assert AliveMafia(roles, [c1]) == {m};
    assert AliveOthers(roles, [c1]) == {c2};
  }

  /** A tie of one mafioso against one civilian already goes to the mafia. */
  lemma WinnerOfTie(m: PlayerId, c: PlayerId)
    requires m != c
    ensures WinnerOf(map[m := Mafia, c := Civilian], []) == Some(MafiaWin)
  {
    var roles := map[m := Mafia, c := Civilian];
    assert AliveMafia(roles, []) == {m};
    assert AliveOthers(roles, []) == {c};
  }

  /** The key `roles[undefined]` writes to: JavaScript turns the missing
      array element into the property name "undefined". */
  const UndefinedKey: PlayerId := "undefined"

  /** The detective step of `assignRoles` as written: the guard tests the
      `civilians` array itself, which is always truthy, so with no civilian
      left the draw reads `civilians[0]`, which is undefined, and a detective
      is recorded under the key "undefined". `pick` is the drawn position. */
  function DetectiveDrawAsWritten(roles: map<PlayerId, Role>, civilians: seq<PlayerId>,
                                  enabled: bool, pick: nat): map<PlayerId, Role>
    requires pick < |civilians| || pick == 0
  {
    if !enabled then roles
    else roles[(if pick < |civilians| then civilians[pick] else UndefinedKey) := Detective]
  }

  /** With the detective enabled and no civilian left, the step as written
      adds a role-table entry, a detective, that belongs to no player. */
  lemma DetectiveDrawAsWrittenPhantom(roles: map<PlayerId, Role>)
    requires UndefinedKey !in roles
    ensures DetectiveDrawAsWritten(roles, [], true, 0).Keys == roles.Keys + {UndefinedKey}
    ensures Holders(DetectiveDrawAsWritten(roles, [], true, 0), Detective) ==
      Holders(roles, Detective) + {UndefinedKey}
  {
    var r := DetectiveDrawAsWritten(roles, [], true, 0);
    assert r == roles[UndefinedKey := Detective];
    assert Holders(r, Detective) == Holders(roles, Detective) + {UndefinedKey};
  }

  // ---------------------------------------------------------------------------
  // Roster helpers

  /** The elements of `s` that are in `c`, in order. */
  function Within(s: seq<PlayerId>, c: set<PlayerId>): seq<PlayerId> {
    if s == [] then []
    else
      var n := |s| - 1;
      Within(s[..n], c) + (if s[n] in c then [s[n]] else [])
  }

  /** The elements of `s` that are not in `c`, in order. */
  function Outside(s: seq<PlayerId>, c: set<PlayerId>): seq<PlayerId> {
    if s == [] then []
    else
      var n := |s| - 1;
      Outside(s[..n], c) + (if s[n] !in c then [s[n]] else [])
  }

  /** The filters keep exactly the elements on their side of `c`. */
  lemma {:induction false} FiltersMembers(s: seq<PlayerId>, c: set<PlayerId>)
    ensures forall x :: x in Within(s, c) <==> x in s && x in c
    ensures forall x :: x in Outside(s, c) <==> x in s && x !in c
  {
    if s != [] {
      var n := |s| - 1;
      assert s == s[..n] + [s[n]];
      FiltersMembers(s[..n], c);
    }
  }

  /** Filtering keeps a sequence free of duplicates. */
  lemma {:induction false} FiltersDistinct(s: seq<PlayerId>, c: set<PlayerId>)
    requires Distinct(s)
    ensures Distinct(Within(s, c)) && Distinct(Outside(s, c))
  {
    if s != [] {
      var n := |s| - 1;
      assert Distinct(s[..n]);
      FiltersDistinct(s[..n], c);
      FiltersMembers(s[..n], c);
      assert s[n] !in s[..n];
      AppendFresh(Within(s[..n], c), if s[n] in c then [s[n]] else []);
      AppendFresh(Outside(s[..n], c), if s[n] !in c then [s[n]] else []);
    }
  }

  /** Appending at most one element that is not there yet keeps a sequence
      free of duplicates. */
  lemma AppendFresh(a: seq<PlayerId>, b: seq<PlayerId>)
    requires Distinct(a) && |b| <= 1 && (forall x :: x in b ==> x !in a)
    ensures Distinct(a + b)
  {
    if |b| == 1 {
      assert b[0] in b;
      forall i | 0 <= i < |a| ensures (a + b)[i] != (a + b)[|a|] {
        assert (a + b)[i] == a[i] && (a + b)[|a|] == b[0];
      }
    }
  }

  /** One more element at the end lands at the end of exactly one filter. */
  lemma SnocFilters(s: seq<PlayerId>, x: PlayerId, c: set<PlayerId>)
    ensures Within(s + [x], c) == Within(s, c) + (if x in c then [x] else [])
    ensures Outside(s + [x], c) == Outside(s, c) + (if x !in c then [x] else [])
    ensures Seating(s + [x], c) == Seating(s, c)[x := if x in c then Civilian else NoRole]
  {
    assert (s + [x])[..|s|] == s;
  }

  /** The filters and the seating of a prefix one element longer. */
  lemma PrefixFilters(s: seq<PlayerId>, i: nat, c: set<PlayerId>)
    requires i < |s|
    ensures Within(s[..i + 1], c) == Within(s[..i], c) + (if s[i] in c then [s[i]] else [])
    ensures Outside(s[..i + 1], c) == Outside(s[..i], c) + (if s[i] !in c then [s[i]] else [])
    ensures Seating(s[..i + 1], c) == Seating(s[..i], c)[s[i] := if s[i] in c then Civilian else NoRole]
  {
    TakeSnoc(s, i);
    SnocFilters(s[..i], s[i], c);
  }

  lemma {:induction false} DistinctSize(s: seq<PlayerId>)
    requires Distinct(s)
    ensures |set x | x in s| == |s|
  {
    if s != [] {
      var n := |s| - 1;
      DistinctSize(s[..n]);
      assert (set x | x in s) == (set x | x in s[..n]) + {s[n]};
    }
  }

  lemma DivAtMost(a: nat, b: Positive)
    ensures 0 <= a / b <= a
  {
    assert a == (a / b) * b + a % b;
  }

  /** The mafia's roster indices in join order (`getMafia`, whose walk over
      the role table follows the order the entries were made, the roster's). */
  function MafiaAmong(ids: seq<PlayerId>, roles: map<PlayerId, Role>): (r: seq<int>)
    ensures forall k :: k in r <==> 0 <= k < |ids| && RoleIn(roles, ids[k]) == Mafia
    ensures forall a, b :: 0 <= a < b < |r| ==> r[a] < r[b]
  {
    if ids == [] then []
    else
      var n := |ids| - 1;
      var front := MafiaAmong(ids[..n], roles);
      assert forall a :: 0 <= a < |front| ==> front[a] in front && front[a] < n;
      front + (if RoleIn(roles, ids[n]) == Mafia then [n] else [])
  }

  // ---------------------------------------------------------------------------
  // The exposed-players view

  /** Marks every index in `idx` as a (living) mafioso. */
  function PutMafia(m: map<int, Exposure>, idx: seq<int>): map<int, Exposure>
    decreases |idx|
  {
    if idx == [] then m else PutMafia(m[idx[0] := Exposure(Mafia, false)], idx[1..])
  }

  /** Records, for each player of `ps` in turn, its role under its roster index. */
  function PutKnown(m: map<int, Exposure>, ids: seq<PlayerId>, roles: map<PlayerId, Role>,
                    ps: seq<PlayerId>, eliminated: bool): map<int, Exposure>
    decreases |ps|
  {
    if ps == [] then m
    else PutKnown(m[IndexOf(ids, ps[0]) := Exposure(RoleIn(roles, ps[0]), eliminated)],
                  ids, roles, ps[1..], eliminated)
  }

  /** `getExposedPlayers(viewer)`: fellow mafiosi for a mafioso, the players
      the detective has investigated for the detective, then every eliminated
      player, the last overriding what came before. */
  function ExposedView(ids: seq<PlayerId>, roles: map<PlayerId, Role>, elim: seq<PlayerId>,
                       detExp: seq<PlayerId>, viewer: PlayerId): map<int, Exposure> {
    var m0 := if RoleIn(roles, viewer) == Mafia then PutMafia(map[], MafiaAmong(ids, roles)) else map[];
    var m1 := if RoleIn(roles, viewer) == Detective then PutKnown(m0, ids, roles, detExp, false) else m0;
    PutKnown(m1, ids, roles, elim, true)
  }

  lemma {:induction false} PutMafiaSpec(m: map<int, Exposure>, idx: seq<int>)
    decreases |idx|
    ensures forall k :: k in PutMafia(m, idx) <==> k in m || k in idx
    ensures forall k :: k in idx ==> PutMafia(m, idx)[k] == Exposure(Mafia, false)
    ensures forall k :: k in m && k !in idx ==> PutMafia(m, idx)[k] == m[k]
  {
    if idx != [] {
      PutMafiaSpec(m[idx[0] := Exposure(Mafia, false)], idx[1..]);
      assert forall k :: k in idx <==> k == idx[0] || k in idx[1..];
    }
  }

  lemma {:induction false} PutKnownSpec(m: map<int, Exposure>, ids: seq<PlayerId>, roles: map<PlayerId, Role>,
                                        ps: seq<PlayerId>, e: bool)
    requires Distinct(ids) && forall p :: p in ps ==> p in ids
    decreases |ps|
    ensures forall k :: k in PutKnown(m, ids, roles, ps, e) <==> k in m || (0 <= k < |ids| && ids[k] in ps)
    ensures forall k :: 0 <= k < |ids| && ids[k] in ps ==>
      PutKnown(m, ids, roles, ps, e)[k] == Exposure(RoleIn(roles, ids[k]), e)
    ensures forall k :: k in m && !(0 <= k < |ids| && ids[k] in ps) ==> PutKnown(m, ids, roles, ps, e)[k] == m[k]
  {
    if ps != [] {
      var i := IndexOf(ids, ps[0]);
      var m' := m[i := Exposure(RoleIn(roles, ps[0]), e)];
      PutKnownSpec(m', ids, roles, ps[1..], e);
      assert forall p :: p in ps <==> p == ps[0] || p in ps[1..];
      forall k | 0 <= k < |ids| ensures k == i <==> ids[k] == ps[0] {
        IndexOfDistinct(ids, k);
      }
    }
  }

  /** A viewer sees exactly the eliminated players, its fellow mafiosi if it
      is a mafioso, and the players it investigated if it is the detective;
      every entry carries the player's actual role and is marked eliminated
      exactly when the player is. */
  lemma ExposedViewSpec(ids: seq<PlayerId>, roles: map<PlayerId, Role>, elim: seq<PlayerId>,
                        detExp: seq<PlayerId>, viewer: PlayerId)
    requires Distinct(ids)
    requires forall p :: p in elim ==> p in ids
    requires forall p :: p in detExp ==> p in ids
    ensures forall k :: k in ExposedView(ids, roles, elim, detExp, viewer) <==>
      0 <= k < |ids| &&
      (ids[k] in elim
       || (RoleIn(roles, viewer) == Mafia && RoleIn(roles, ids[k]) == Mafia)
       || (RoleIn(roles, viewer) == Detective && ids[k] in detExp))
    ensures forall k :: k in ExposedView(ids, roles, elim, detExp, viewer) ==>
      ExposedView(ids, roles, elim, detExp, viewer)[k] == Exposure(RoleIn(roles, ids[k]), ids[k] in elim)
  {
    var mafia := MafiaAmong(ids, roles);
    var m0 := if RoleIn(roles, viewer) == Mafia then PutMafia(map[], mafia) else map[];
    PutMafiaSpec(map[], mafia);
    var m1 := if RoleIn(roles, viewer) == Detective then PutKnown(m0, ids, roles, detExp, false) else m0;
    PutKnownSpec(m0, ids, roles, detExp, false);
    PutKnownSpec(m1, ids, roles, elim, true);
  }

  // ---------------------------------------------------------------------------
  // Vote tabulation

  /** The voters in `within` whose ballot names `t`. */
  ghost function VotersFor(votes: map<PlayerId, PlayerId>, within: set<PlayerId>, t: PlayerId): set<PlayerId> {
    set v | v in within && v in votes && votes[v] == t
  }

  /** The number of ballots naming `t`. */
  ghost function Tally(votes: map<PlayerId, PlayerId>, t: PlayerId): nat {
    |VotersFor(votes, votes.Keys, t)|
  }

  /** `c` was named on some ballot and no one was named on more. */
  ghost predicate IsTopCandidate(votes: map<PlayerId, PlayerId>, c: PlayerId) {
    c in votes.Values && forall t :: t in votes.Values ==> Tally(votes, t) <= Tally(votes, c)
  }

  lemma VotersForGrow(votes: map<PlayerId, PlayerId>, within: set<PlayerId>, v: PlayerId, t: PlayerId)
    requires v in votes && v !in within
    ensures VotersFor(votes, within + {v}, t) ==
      VotersFor(votes, within, t) + (if votes[v] == t then {v} else {})
    ensures |VotersFor(votes, within + {v}, t)| ==
      |VotersFor(votes, within, t)| + (if votes[v] == t then 1 else 0)
  {
    assert VotersFor(votes, within + {v}, t) ==
      VotersFor(votes, within, t) + (if votes[v] == t then {v} else {});
  }

  /** The targets named on the ballots of `within`. */
  ghost function Targets(votes: map<PlayerId, PlayerId>, within: set<PlayerId>): set<PlayerId>
    requires within <= votes.Keys
  {
    set v | v in within :: votes[v]
  }

  /** The `voteCount` table over the ballots of `within` only. */
  ghost function TallyOver(votes: map<PlayerId, PlayerId>, within: set<PlayerId>): map<PlayerId, nat>
    requires within <= votes.Keys
  {
    map t | t in Targets(votes, within) :: |VotersFor(votes, within, t)|
  }

  /** Counting one more ballot adds one to its target's entry, creating the
      entry at 1 if the target was not named yet. */
  lemma TallyOverGrow(votes: map<PlayerId, PlayerId>, within: set<PlayerId>, v: PlayerId)
    requires within <= votes.Keys && v in votes && v !in within
    ensures TallyOver(votes, within + {v}) ==
      TallyOver(votes, within)[votes[v] :=
        (if votes[v] in TallyOver(votes, within) then TallyOver(votes, within)[votes[v]] else 0) + 1]
  {
    var t := votes[v];
    assert Targets(votes, within + {v}) == Targets(votes, within) + {t};
    forall u ensures |VotersFor(votes, within + {v}, u)| == |VotersFor(votes, within, u)| + (if t == u then 1 else 0) {
      VotersForGrow(votes, within, v, u);
    }
    if t !in Targets(votes, within) {
      assert VotersFor(votes, within, t) == {};
    }
  }

  /** The table over every ballot has an entry for exactly the named
      targets, holding each one's tally. */
  lemma TallyOverAll(votes: map<PlayerId, PlayerId>)
    ensures TallyOver(votes, votes.Keys).Keys == votes.Values
    ensures forall t :: t in votes.Values ==> TallyOver(votes, votes.Keys)[t] == Tally(votes, t)
  {
    assert Targets(votes, votes.Keys) == votes.Values;
  }

  /** The ballot box after `processVote(voter, vote)`: a voter who has not
      voted yet and is not eliminated, naming an index inside the roster,
      adds one ballot for the player at that index; anything else leaves the
      box as it was. Ballots already cast never change. */
  function CastBallot(votes: map<PlayerId, PlayerId>, elim: seq<PlayerId>, ids: seq<PlayerId>,
                      voter: PlayerId, vote: int): (r: map<PlayerId, PlayerId>)
    ensures voter !in votes && voter !in elim && 0 <= vote < |ids| ==>
      r.Keys == votes.Keys + {voter} && r[voter] == ids[vote]
    ensures voter in votes || voter in elim || !(0 <= vote < |ids|) ==> r == votes
    ensures forall v :: v in votes ==> v in r && r[v] == votes[v]
  {
    if voter !in votes && voter !in elim && 0 <= vote < |ids| then votes[voter := ids[vote]] else votes
  }

  /** The `voteCount` table: how many ballots name each target. */
  method TallyVotes(votes: map<PlayerId, PlayerId>) returns (counts: map<PlayerId, nat>)
    ensures counts.Keys == votes.Values
    ensures forall t :: t in counts ==> counts[t] == Tally(votes, t)
  {
    counts := map[];
    var rest := votes.Keys;
    ghost var done: set<PlayerId> := {};
    while rest != {}
      invariant rest !! done && rest + done == votes.Keys
      invariant counts == TallyOver(votes, done)
      decreases |rest|
    {
      var v :| v in rest;
      var t := votes[v];
      TallyOverGrow(votes, done, v);
      MoveOne(rest, done, votes.Keys, v);
      if t in counts {
        counts := counts[t := counts[t] + 1];
      } else {
        counts := counts[t := 1];
      }
      rest := rest - {v};
      done := done + {v};
    }
    assert done == votes.Keys;
    TallyOverAll(votes);
  }

  /** The largest tally and the targets tied at it. */
  method TopCandidates(counts: map<PlayerId, nat>) returns (maxVotes: nat, candidates: set<PlayerId>)
    requires counts != map[]
    ensures candidates != {}
    ensures forall t :: t in candidates <==> t in counts && counts[t] == maxVotes
    ensures forall t :: t in counts ==> counts[t] <= maxVotes
  {
    maxVotes := 0;
    var rest := counts.Keys;
    ghost var done: set<PlayerId> := {};
    ghost var best: PlayerId := "";
    var first := true;
    while rest != {}
      invariant rest !! done && rest + done == counts.Keys
      invariant first <==> done == {}
      invariant forall t :: t in done ==> counts[t] <= maxVotes
      invariant done != {} ==> best in done && counts[best] == maxVotes
      decreases |rest|
    {
      var t :| t in rest;
      if first || counts[t] > maxVotes {
        maxVotes := counts[t];
        best := t;
      }
      first := false;
      MoveOne(rest, done, counts.Keys, t);
      rest := rest - {t};
      done := done + {t};
    }
    assert counts.Keys != {} by { var k :| k in counts; assert k in counts.Keys; }
    candidates := set t | t in counts && counts[t] == maxVotes;
    assert best in candidates;
  }

  // ---------------------------------------------------------------------------
  // The game object

  class Game {
    /** The room's roster in join order, as `getPlayerIndex` and
        `getPlayerByIndex` see it. */
    const ids: seq<PlayerId>
    const options: Options

    var state: State
    var roles: map<PlayerId, Role>
    /** Eliminated players, in the order they went out. */
    var elimPlayers: seq<PlayerId>
    /** Players the detective has investigated (nothing in the engine fills it). */
    var detExpPlayers: seq<PlayerId>
    /** The ballot box of the open vote: voter to target. */
    var votes: map<PlayerId, PlayerId>
    /** The pending phase deadline, as the duration it was set for. */
    var deadline: Option<nat>

    ghost predicate Valid()
      reads this
    {
      && Distinct(ids)
      && (forall v :: v in votes ==> votes[v] in ids)
      && (forall p :: p in elimPlayers ==> p in ids)
      && (forall p :: p in detExpPlayers ==> p in ids)
    }

    /** What role assignment leaves behind for the connected players `connected`. */
    ghost predicate RolesAssigned(connected: set<PlayerId>)
      reads this
    {
      && roles.Keys == (set p | p in ids)
      && (forall p :: p in ids ==> (roles[p] == NoRole <==> p !in connected))
      && elimPlayers == Outside(ids, connected)
      && |Holders(roles, Mafia)| == |connected| / options.mafiaCoeff
      && |Holders(roles, Detective)| ==
           (if options.detective && |connected| / options.mafiaCoeff < |connected| then 1 else 0)
    }

    constructor (ids: seq<PlayerId>, options: Options)
      requires Distinct(ids)
      ensures Valid()
      ensures this.ids == ids && this.options == options
      ensures state == Initial && roles == map[] && elimPlayers == [] && detExpPlayers == []
      ensures votes == map[] && deadline == None
    {
      this.ids := ids;
      this.options := options;
      state := Initial;
      roles := map[];
      elimPlayers := [];
      detExpPlayers := [];
      votes := map[];
      deadline := None;
    }

    /** `getMafia`. */
    function MafiaMembers(): seq<int>
      reads this
    {
      MafiaAmong(ids, roles)
    }

    /** `getExposedPlayers(viewer)`. */
    function ExposedPlayers(viewer: PlayerId): map<int, Exposure>
      reads this
    {
      ExposedView(ids, roles, elimPlayers, detExpPlayers, viewer)
    }

    /** What `start` sends each connected player. */
    function StartInfos(connected: set<PlayerId>): map<PlayerId, StartInfo>
      reads this
    {
      map p | p in connected ::
        StartInfo(RoleIn(roles, p), if RoleIn(roles, p) == Mafia then Some(MafiaAmong(ids, roles)) else None)
    }

    /** `assignRoles`: players who have left get no role and are eliminated;
        the others start as civilians; `floor(count / mafiaCoeff)` of them
        are drawn to be mafiosi, then, if enabled and a civilian is left, one
        civilian is drawn to be the detective. */
    method AssignRoles(connected: set<PlayerId>)
      requires Valid() && connected <= (set p | p in ids)
      requires roles == map[] && elimPlayers == []
      modifies this`roles, this`elimPlayers
      ensures Valid() && RolesAssigned(connected)
    {
      roles, elimPlayers := DealRoles(ids, connected, options.mafiaCoeff, options.detective);
    }

    /** `start`: assign the roles, tell each connected player its role (and
        the mafia roster to mafiosi), and schedule the end of the first night. */
    method Start(connected: set<PlayerId>) returns (infos: map<PlayerId, StartInfo>)
      requires Valid() && connected <= (set p | p in ids)
      requires roles == map[] && elimPlayers == []
      modifies this`roles, this`elimPlayers, this`deadline
      ensures Valid() && RolesAssigned(connected)
      ensures infos == StartInfos(connected)
      ensures deadline == Some(options.nightTimeout)
    {
      AssignRoles(connected);
      infos := StartInfos(connected);
      deadline := Some(options.nightTimeout);
    }

    /** `getWinner`: counts the surviving mafiosi and the other survivors. */
    method GetWinner() returns (w: Option<Winner>)
      ensures w == WinnerOf(roles, elimPlayers)
    {
      var civilianCount, mafiaCount := 0, 0;
      var rest := roles.Keys;
      ghost var done: set<PlayerId> := {};
      while rest != {}
        invariant rest !! done && rest + done == roles.Keys
        invariant mafiaCount == |AliveIn(roles, elimPlayers, done, true)|
        invariant civilianCount == |AliveIn(roles, elimPlayers, done, false)|
        decreases |rest|
      {
        var p :| p in rest;
        AliveInGrow(roles, elimPlayers, done, p, true);
        AliveInGrow(roles, elimPlayers, done, p, false);
        if IndexOf(elimPlayers, p) == -1 {
          if roles[p] == Mafia {
            mafiaCount := mafiaCount + 1;
          } else {
            civilianCount := civilianCount + 1;
          }
        }
        MoveOne(rest, done, roles.Keys, p);
        rest := rest - {p};
        done := done + {p};
      }
      assert AliveIn(roles, elimPlayers, done, true) == AliveMafia(roles, elimPlayers);
      assert AliveIn(roles, elimPlayers, done, false) == AliveOthers(roles, elimPlayers);
      if mafiaCount == 0 {
        w := Some(CivilianWin);
      } else if civilianCount <= mafiaCount {
        w := Some(MafiaWin);
      } else {
        w := None;
      }
    }

    /** `processVote`: a voter who has not voted yet and is still in the game
        names a target by roster index; an index outside the roster is ignored. */
    method ProcessVote(voter: PlayerId, vote: int)
      requires Valid()
      modifies this`votes
      ensures Valid()
      ensures votes == CastBallot(old(votes), elimPlayers, ids, voter, vote)
    {
      var wasVoted := voter in votes;
      var isEliminated := IndexOf(elimPlayers, voter) != -1;
      if !wasVoted && !isEliminated {
        if 0 <= vote < |ids| {
          votes := votes[voter := ids[vote]];
        }
      }
    }

    /** `processVoteResult`: with no ballots, nobody is put out; otherwise one
        of the most-named targets is, the ballot box is emptied, and the
        target's roster index and role are announced. */
    method ProcessVoteResult() returns (r: Option<Outvoted>)
      requires Valid()
      modifies this`votes
      ensures Valid() && votes == map[]
      ensures r.None? <==> old(votes) == map[]
      ensures r.Some? ==>
        && 0 <= r.value.playerIndex < |ids|
        && IsTopCandidate(old(votes), ids[r.value.playerIndex])
        && r.value.role == RoleIn(roles, ids[r.value.playerIndex])
    {
      if |votes| == 0 {
        return None;
      }
      var counts := TallyVotes(votes);
      assert counts != map[] by {
        var v :| v in votes;
        assert votes[v] in votes.Values;
      }
      var maxVotes, candidates := TopCandidates(counts);
      ghost var ballots := votes;
      votes := map[];
      var candidate :| candidate in candidates;
      var index := IndexOf(ids, candidate);
      r := Some(Outvoted(index, RoleIn(roles, candidate)));
      assert candidate in ids by {
        var v :| v in ballots && ballots[v] == candidate;
      }
    }

    /** The first half of `nextPhase`: a running vote is closed (day and
        night flip and the outvoted player, if any, is eliminated); otherwise
        a vote is opened, or on the introduction night and the first day the
        phase flips directly. */
    method TogglePhase() returns (outvoted: Option<Outvoted>)
      requires Valid()
      modifies this`state, this`elimPlayers, this`votes
      ensures Valid()
      ensures state == Toggled(old(state))
      ensures !old(state.isVoting) ==> outvoted == None && votes == old(votes)
      ensures old(state.isVoting) ==> votes == map[] && (outvoted == None <==> old(votes) == map[])
      ensures outvoted.None? ==> elimPlayers == old(elimPlayers)
      ensures outvoted.Some? ==>
        && 0 <= outvoted.value.playerIndex < |ids|
        && IsTopCandidate(old(votes), ids[outvoted.value.playerIndex])
        && outvoted.value.role == RoleIn(roles, ids[outvoted.value.playerIndex])
        && elimPlayers == old(elimPlayers) + [ids[outvoted.value.playerIndex]]
    {
      outvoted := None;
      if state.isVoting {
        state := state.(isVoting := false, isDay := !state.isDay);
        outvoted := ProcessVoteResult();
        if outvoted.Some? {
          elimPlayers := elimPlayers + [ids[outvoted.value.playerIndex]];
        }
      } else {
        var isMafiaMeeting := state.move == 0;
        var isFirstDay := state.move == 1 && state.isDay;
        if isMafiaMeeting || isFirstDay {
          state := state.(isDay := !state.isDay);
        } else {
          state := state.(isVoting := true);
        }
      }
    }

    /** `nextPhase`: close the vote (announcing and eliminating the outvoted
        player) or open one, advance the phase, then either schedule the next
        deadline or, once a side has won, schedule nothing. */
    method NextPhase() returns (u: Update)
      requires Valid()
      modifies this`state, this`elimPlayers, this`votes, this`deadline
      ensures Valid()
      ensures state == NextState(old(state)) && u.state == state
      ensures !old(state.isVoting) ==> u.outvoted == None && votes == old(votes)
      ensures old(state.isVoting) ==> votes == map[] && (u.outvoted == None <==> old(votes) == map[])
      ensures u.outvoted.None? ==> elimPlayers == old(elimPlayers)
      ensures u.outvoted.Some? ==>
        && 0 <= u.outvoted.value.playerIndex < |ids|
        && IsTopCandidate(old(votes), ids[u.outvoted.value.playerIndex])
        && u.outvoted.value.role == RoleIn(roles, ids[u.outvoted.value.playerIndex])
        && elimPlayers == old(elimPlayers) + [ids[u.outvoted.value.playerIndex]]
      ensures u.winner == WinnerOf(roles, elimPlayers)
      ensures deadline == if u.winner == None then Some(PhaseTimeout(state, options)) else None
    {
      var outvoted := TogglePhase();
      if state.isDay && !state.isVoting {
        state := state.(move := state.move + 1);
      }
      var timeout := if state.isVoting then options.voteTimeout
                     else if state.isDay then options.dayTimeout
                     else options.nightTimeout;
      var winner := GetWinner();
      if winner == None {
        deadline := Some(timeout);
      } else {
        deadline := None;
      }
      u := Update(state, outvoted, winner);
    }
  }

  /** `newGame`: a room that has no game gets a new one, started at once; a
      room that has one keeps it. */
  method NewGame(existing: Game?, ids: seq<PlayerId>, connected: set<PlayerId>, options: Options)
    returns (g: Game, infos: map<PlayerId, StartInfo>)
    requires existing == null ==> Distinct(ids) && connected <= (set p | p in ids)
    ensures existing != null ==> g == existing && infos == map[]
    ensures existing == null ==>
      && fresh(g) && g.Valid() && g.ids == ids && g.options == options
      && g.state == Initial && g.votes == map[] && g.detExpPlayers == []
      && g.RolesAssigned(connected)
      && g.deadline == Some(options.nightTimeout)
      && infos == g.StartInfos(connected)
  {
    if existing != null {
      g, infos := existing, map[];
    } else {
      g := new Game(ids, options);
      infos := g.Start(connected);
    }
  }

  /** What `start` tells the players: every connected player, and no one
      else, hears its own role; a mafioso also gets the mafia's roster
      indices, anyone else nothing more. */
  lemma StartInfosMeaning(g: Game, connected: set<PlayerId>)
    ensures g.StartInfos(connected).Keys == connected
    ensures forall p :: p in connected ==> g.StartInfos(connected)[p].role == RoleIn(g.roles, p)
    ensures forall p :: p in connected ==>
      (g.StartInfos(connected)[p].mafiaMembers.Some? <==> RoleIn(g.roles, p) == Mafia)
    ensures forall p, k :: p in connected && g.StartInfos(connected)[p].mafiaMembers.Some? ==>
      (k in g.StartInfos(connected)[p].mafiaMembers.value <==> 0 <= k < |g.ids| && RoleIn(g.roles, g.ids[k]) == Mafia)
  {
  }
}
