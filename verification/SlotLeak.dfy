/** R2 over whole runs: how the slots of a lobby leak away, and in which configurations they cannot. */
module SlotLeak {
  import opened Types
  import opened State
  import opened Handlers
  import opened Invariant
  import opened Slots
  import opened Runs
  import Reachable
  import Divergence

  // Users 0 and 1, logged in on sessions 0 and 1, are at LOGIN, but for those inside lobby 0 with these slots.
  ghost predicate Shows(s: ServerState, slots: seq<Option<int>>, inside: set<int>) {
    && Inv(s) && |s.lobbies| > 0
    && s.lobbies[0].max == |slots| && s.lobbies[0].slots == slots && s.lobbies[0].byIndex.Keys == inside
    && At(s, 0, inside) && At(s, 1, inside)
  }

  ghost predicate At(s: ServerState, u: int, inside: set<int>) {
    && s.GetUser(u) == Found(u)
    && (if u in inside then s.User(u).domain == DomainLobby && s.User(u).lobby == 0 else s.User(u).domain == DomainLogin)
  }

  // The lobby enter of a user that the lobby has room for.
  function Entering(p: Patch, s: ServerState, u: int): ServerState
    requires |s.lobbies| > 0 && s.lobbies[0].Enter(p, u, s.User(u).id).Entered?
  {
    s.WithLobby(0, s.lobbies[0].Enter(p, u, s.User(u).id).lobby).WithUser(u, s.User(u).EnteredLobby(0))
  }

  lemma EnterTakesSlot(p: Patch, s: ServerState, slots: seq<Option<int>>, inside: set<int>, u: int, k: nat)
    requires Shows(s, slots, inside) && (u == 0 || u == 1) && u !in inside && |inside| < |slots|
    requires k < |slots| && FirstFree(slots, 0) == k
    ensures var e := s.lobbies[0].Enter(p, u, s.User(u).id);
            && e.Entered? && e.code == NONE && e.lobby.slots == slots[k := Some(u)]
            && e.lobby.byIndex.Keys == inside + {u} && e.lobby.max == |slots| && e.lobby.rooms == s.lobbies[0].rooms
    ensures LobbyEnter(p, s, u, 0).Done? && LobbyEnter(p, s, u, 0).state == Entering(p, s, u)
  {
    SeenOutside(s, slots, inside, u);
    EnterTakesFirstFree(p, s.lobbies[0], u, s.User(u).id);
    EnterReachesTheLobby(p, s, u);
  }

  lemma SeenOutside(s: ServerState, slots: seq<Option<int>>, inside: set<int>, u: int)
    requires Shows(s, slots, inside) && (u == 0 || u == 1) && u !in inside
    ensures s.GetUser(u) == Found(u) && s.User(u).domain == DomainLogin && s.User(u).index == u
    ensures s.HasLobby(0) && s.lobbies[0].index == 0 && |s.lobbies[0].byIndex.Keys| == |inside|
  {
    assert UserInv(s.users, s.free, u) && At(s, u, inside);
  }

  lemma EnterReachesTheLobby(p: Patch, s: ServerState, u: int)
    requires s.GetUser(u) == Found(u) && s.User(u).domain == DomainLogin && s.User(u).index == u
    requires s.HasLobby(0) && |s.lobbies| > 0 && s.lobbies[0].index == 0
    requires s.lobbies[0].Enter(p, u, s.User(u).id).Entered? && s.lobbies[0].Enter(p, u, s.User(u).id).code == NONE
    ensures LobbyEnter(p, s, u, 0).Done? && LobbyEnter(p, s, u, 0).state == Entering(p, s, u)
  {
  }

  lemma EnterTakesFirstFree(p: Patch, lobby: LobbyState, u: int, id: string)
    requires u !in lobby.byIndex && |lobby.byIndex.Keys| < lobby.max
    requires FirstFree(lobby.slots, 0) < |lobby.slots|
    ensures var e := lobby.Enter(p, u, id);
            && e.Entered? && e.code == NONE && e.lobby.slots == lobby.slots[FirstFree(lobby.slots, 0) := Some(u)]
            && e.lobby.byIndex.Keys == lobby.byIndex.Keys + {u}
            && e.lobby.max == lobby.max && e.lobby.rooms == lobby.rooms && e.lobby.index == lobby.index
  {
  }

  // Moving one of the users changes what is to be seen of it and of the lobby.
  lemma ShowsAfter(s: ServerState, slots: seq<Option<int>>, inside: set<int>, s': ServerState, u: int,
                   slots': seq<Option<int>>, inside': set<int>)
    requires Shows(s, slots, inside) && (u == 0 || u == 1) && Inv(s') && OnlyUser(s, s', u)
    requires s'.bySession == s.bySession && s'.users[u].confirmed && (1 - u in inside' <==> 1 - u in inside)
    requires |s'.lobbies| > 0 && s'.lobbies[0].max == |slots'| && s'.lobbies[0].slots == slots'
    requires s'.lobbies[0].byIndex.Keys == inside'
    requires if u in inside' then s'.users[u].domain == DomainLobby && s'.users[u].lobby == 0
             else s'.users[u].domain == DomainLogin
    ensures Shows(s', slots', inside')
  {
    assert At(s, 1 - u, inside);
  }

  // Entering fills the first null slot.
  lemma EnterGoes(p: Patch, s0: ServerState, es: seq<Event>, s: ServerState,
                  slots: seq<Option<int>>, inside: set<int>, u: int, k: nat) returns (es': seq<Event>, s': ServerState)
    requires Takes(p, s0, es, s)
    requires Shows(s, slots, inside) && (u == 0 || u == 1) && u !in inside && |inside| < |slots|
    requires k < |slots| && FirstFree(slots, 0) == k
    ensures Takes(p, s0, es', s') && Shows(s', slots[k := Some(u)], inside + {u})
    ensures es' == es + [LobbyEnterReq(u, 0)] && (InRange(2, es) ==> InRange(2, es'))
    ensures s'.lobbies[0].rooms == s.lobbies[0].rooms && s'.users == s.users[u := s.users[u].EnteredLobby(0)]
  {
    assert UserInv(s.users, s.free, u);
    EnterTakesSlot(p, s, slots, inside, u, k);
    es', s' := Advance(p, s0, es, s, LobbyEnterReq(u, 0));
    InRangeAppend(2, es, LobbyEnterReq(u, 0));
    ShowsAfter(s, slots, inside, s', u, slots[k := Some(u)], inside + {u});
  }

  // When no slot is null, entering dereferences the end.
  lemma EnterIsFatal(p: Patch, s: ServerState, slots: seq<Option<int>>, inside: set<int>, u: int)
    requires Shows(s, slots, inside) && (u == 0 || u == 1) && u !in inside && |inside| < |slots|
    requires FirstFree(slots, 0) == |slots|
    ensures Step(p, s, LobbyEnterReq(u, 0)).Undefined?
  {
    assert UserInv(s.users, s.free, u) && |s.lobbies[0].byIndex.Keys| == |inside|;
  }

  // Leaving clears a slot, as written or repaired.
  lemma LeaveGoes(p: Patch, s0: ServerState, es: seq<Event>, s: ServerState,
                  slots: seq<Option<int>>, inside: set<int>, u: nat) returns (es': seq<Event>, s': ServerState)
    requires Takes(p, s0, es, s) && Shows(s, slots, inside) && (u == 0 || u == 1) && u in inside
    ensures Takes(p, s0, es', s') && Shows(s', ClearSlot(p, slots, u), inside - {u})
    ensures es' == es + [LobbyLeaveReq(u)] && (InRange(2, es) ==> InRange(2, es'))
    ensures s'.lobbies[0].rooms == s.lobbies[0].rooms && s'.users == s.users[u := s.users[u].LeftLobby()]
  {
    LeavingClearsSlot(p, s, slots, inside, u);
    es', s' := Advance(p, s0, es, s, LobbyLeaveReq(u));
    InRangeAppend(2, es, LobbyLeaveReq(u));
    ShowsAfter(s, slots, inside, s', u, ClearSlot(p, slots, u), inside - {u});
  }

  lemma LeavingClearsSlot(p: Patch, s: ServerState, slots: seq<Option<int>>, inside: set<int>, u: int)
    requires Shows(s, slots, inside) && (u == 0 || u == 1) && u in inside
    ensures LobbyLeave(p, s, u).Done?
    ensures var s' := LobbyLeave(p, s, u).state;
            && s'.users == s.users[u := s.users[u].LeftLobby()] && s'.bySession == s.bySession
            && |s'.lobbies| > 0 && s'.lobbies[0].max == |ClearSlot(p, slots, u)|
            && s'.lobbies[0].slots == ClearSlot(p, slots, u)
            && s'.lobbies[0].byIndex.Keys == inside - {u} && s'.lobbies[0].rooms == s.lobbies[0].rooms
  {
    var user := s.User(u);
    assert UserInv(s.users, s.free, u) && LobbyShape(s.lobbies[0]) && At(s, u, inside);
    LeavingTakesKey(p, s.lobbies[0], u, user.id);
    assert LobbyLeave(p, s, u).state == s.WithLobby(0, s.lobbies[0].Leave(p, u, user.id).0).WithUser(u, user.LeftLobby());
  }

  lemma LeavingTakesKey(p: Patch, lobby: LobbyState, u: int, id: string)
    requires u in lobby.byIndex && lobby.byIndex[u] == u
    ensures lobby.Leave(p, u, id).0.byIndex.Keys == lobby.byIndex.Keys - {u}
    ensures lobby.Leave(p, u, id).0.slots == ClearSlot(p, lobby.slots, u)
    ensures lobby.Leave(p, u, id).0.max == lobby.max && lobby.Leave(p, u, id).0.rooms == lobby.rooms
  {
  }

  function Empty(m: nat): seq<Option<int>> {
    seq(m, _ => None)
  }

  // Two clients log in to a server with a lobby.
  lemma TwoLogins(p: Patch, cfg: Config) returns (es: seq<Event>, s: ServerState)
    requires ValidConfig(cfg) && cfg.maxUsers > 1 && cfg.lobbyCount > 0
    ensures es == [LoginReq(0, "a", 0), LoginReq(1, "b", 1)]
    ensures Takes(p, Init(cfg), es, s) && Shows(s, Empty(cfg.maxLobbyUsers), {})
    ensures s.lobbies == Init(cfg).lobbies && s.lobbies[0] == NewLobby(0, cfg)
    ensures s.User(0) == NewUser(0).LoggedIn(0, "a") && s.User(1) == NewUser(1).LoggedIn(1, "b")
  {
    var s0 := Init(cfg);
    InitKeepsInv(cfg);
    NoEvents(p, s0);
    es, s := Advance(p, s0, [], s0, LoginReq(0, "a", 0));
    FirstLogin(p, cfg, 0);
    assert s0.users[1] == NewUser(1) && s.free[0] == 1;
    var s1 := s;
    es, s := Advance(p, s0, es, s, LoginReq(1, "b", 1));
    SecondLogin(p, s1);
    NobodyEnteredYet(cfg, s);
  }

  lemma NobodyEnteredYet(cfg: Config, s: ServerState)
    requires ValidConfig(cfg) && cfg.lobbyCount > 0 && Inv(s) && s.lobbies == Init(cfg).lobbies
    requires s.bySession == map[0 := 0, 1 := 1] && |s.users| > 1
    requires s.users[0] == NewUser(0).LoggedIn(0, "a") && s.users[1] == NewUser(1).LoggedIn(1, "b")
    ensures Shows(s, Empty(cfg.maxLobbyUsers), {})
  {
    assert s.lobbies[0] == NewLobby(0, cfg);
  }

  lemma SecondLogin(p: Patch, s: ServerState)
    requires |s.users| > 1 && |s.free| > 0 && s.free[0] == 1
    requires s.bySession == map[0 := 0] && s.byId == map[if p.keyByText then Text("a") else PacketBuffer(0) := 0]
    ensures var s' := Login(p, s, 1, "b", 1).state;
            && s'.users == s.users[1 := s.users[1].LoggedIn(1, "b")] && s'.lobbies == s.lobbies
            && s'.bySession == map[0 := 0, 1 := 1]
  {
    assert Text("a") != Text("b") by { assert "a"[0] != "b"[0]; }
  }

  // The slots from 2 up to k are occupied although nobody is inside; the others are null.
  ghost predicate Leaked(slots: seq<Option<int>>, k: nat) {
    && 2 <= k <= |slots|
    && forall j :: 0 <= j < |slots| ==> (slots[j].Some? <==> 2 <= j < k)
  }

  // Slots 0 up to k are occupied, the others null.
  ghost predicate Filled(slots: seq<Option<int>>, k: nat) {
    k <= |slots| && forall j :: 0 <= j < |slots| ==> (slots[j].Some? <==> j < k)
  }

  lemma HalfRoundFills(p: Patch, slots: seq<Option<int>>, k: nat)
    requires !p.clearByUser && Leaked(slots, k)
    ensures FirstFree(slots, 0) == 0
    ensures var left := ClearSlot(p, slots[0 := Some(1)], 1);
            |left| == |slots| && FirstFree(left, 0) == 1 && Filled(left[1 := Some(0)], k)
  {
    FirstNullIsFirstFree(slots, 0, 0);
    Divergence.ClearsNumberedSlot(p, slots[0 := Some(1)], 1);
    FirstNullIsFirstFree(ClearSlot(p, slots[0 := Some(1)], 1), 0, 1);
  }

  lemma SecondHalfLeaks(p: Patch, slots: seq<Option<int>>, k: nat)
    requires !p.clearByUser && Filled(slots, k) && 2 <= k < |slots|
    ensures FirstFree(slots, 0) == k
    ensures var left := ClearSlot(p, ClearSlot(p, slots[k := Some(1)], 1), 0);
            |left| == |slots| && Leaked(left, k + 1)
  {
    FirstNullIsFirstFree(slots, 0, k);
    Divergence.ClearsNumberedSlot(p, slots[k := Some(1)], 1);
    Divergence.ClearsNumberedSlot(p, ClearSlot(p, slots[k := Some(1)], 1), 0);
  }

  // User 1 enters and leaves, and user 0 enters: slots 0 and 1 are taken, and the first null slot is slot k.
  lemma HalfRound(p: Patch, s0: ServerState, es: seq<Event>, s: ServerState, slots: seq<Option<int>>, k: nat)
    returns (es': seq<Event>, s': ServerState, slots': seq<Option<int>>)
    requires !p.clearByUser && Takes(p, s0, es, s) && Shows(s, slots, {}) && Leaked(slots, k)
    ensures Takes(p, s0, es', s') && Shows(s', slots', {0}) && |slots'| == |slots| && Filled(slots', k)
    ensures InRange(2, es) ==> InRange(2, es')
  {
    HalfRoundFills(p, slots, k);
    es', s' := EnterGoes(p, s0, es, s, slots, {}, 1, 0);
    es', s' := LeaveGoes(p, s0, es', s', slots[0 := Some(1)], {} + {1}, 1);
    slots' := ClearSlot(p, slots[0 := Some(1)], 1);
    assert {} + {1} - {1} == {};
    es', s' := EnterGoes(p, s0, es', s', slots', {}, 0, 1);
    slots' := slots'[1 := Some(0)];
    assert {} + {0} == {0};
  }

  // The rest of the round: user 1 takes slot k and both leave, by the wrong slots.
  lemma SecondHalf(p: Patch, s0: ServerState, es: seq<Event>, s: ServerState, slots: seq<Option<int>>, k: nat)
    returns (es': seq<Event>, s': ServerState, slots': seq<Option<int>>)
    requires !p.clearByUser && Takes(p, s0, es, s) && Shows(s, slots, {0}) && 2 <= k < |slots| && Filled(slots, k)
    ensures Takes(p, s0, es', s') && Shows(s', slots', {}) && |slots'| == |slots| && Leaked(slots', k + 1)
    ensures InRange(2, es) ==> InRange(2, es')
  {
    SecondHalfLeaks(p, slots, k);
    es', s' := EnterGoes(p, s0, es, s, slots, {0}, 1, k);
    slots' := slots[k := Some(1)];
    es', s' := LeaveGoes(p, s0, es', s', slots', {0} + {1}, 1);
    slots' := ClearSlot(p, slots', 1);
    assert {0} + {1} - {1} == {0};
    es', s' := LeaveGoes(p, s0, es', s', slots', {0}, 0);
    slots' := ClearSlot(p, slots', 0);
    assert {0} - {0} == {};
  }

  // Round after round leaks a slot, until none is null when user 1 enters.
  lemma {:induction false} RoundsAreFatal(p: Patch, s0: ServerState, es: seq<Event>, s: ServerState,
                                          slots: seq<Option<int>>, k: nat) returns (es': seq<Event>)
    requires !p.clearByUser && Takes(p, s0, es, s) && Shows(s, slots, {}) && Leaked(slots, k)
    ensures Run(p, s0, es') == Lost && (InRange(2, es) ==> InRange(2, es'))
    decreases |slots| - k
  {
    var es1, s1, slots1 := HalfRound(p, s0, es, s, slots, k);
    if k == |slots| {
      FirstNullIsFirstFree(slots1, 0, k);
      EnterIsFatal(p, s1, slots1, {0}, 1);
      RunAppend(p, s0, es1, LobbyEnterReq(1, 0));
      InRangeAppend(2, es1, LobbyEnterReq(1, 0));
      es' := es1 + [LobbyEnterReq(1, 0)];
    } else {
      var es2, s2, slots2 := SecondHalf(p, s0, es1, s1, slots1, k);
      es' := RoundsAreFatal(p, s0, es2, s2, slots2, k + 1);
    }
  }

  // A lobby for one: user 1 has no slot of its number, so its slot stays occupied when it leaves.
  lemma OneSlotIsFatal(p: Patch, s0: ServerState, es: seq<Event>, s: ServerState) returns (es': seq<Event>)
    requires !p.clearByUser && Takes(p, s0, es, s) && Shows(s, Empty(1), {})
    ensures Run(p, s0, es') == Lost && (InRange(2, es) ==> InRange(2, es'))
  {
    FirstNullIsFirstFree(Empty(1), 0, 0);
    var es1, s1 := EnterGoes(p, s0, es, s, Empty(1), {}, 1, 0);
    var slots := Empty(1)[0 := Some(1)];
    var es2, s2 := LeaveGoes(p, s0, es1, s1, slots, {} + {1}, 1);
    assert {} + {1} - {1} == {};
    Divergence.ClearsNumberedSlot(p, slots, 1);
    assert ClearSlot(p, slots, 1) == slots;
    FirstNullIsFirstFree(slots, 0, 1);
    EnterIsFatal(p, s2, slots, {}, 1);
    RunAppend(p, s0, es2, LobbyEnterReq(1, 0));
    InRangeAppend(2, es2, LobbyEnterReq(1, 0));
    es' := es2 + [LobbyEnterReq(1, 0)];
  }

  /** With two users and a lobby that admits anyone, some run of the code as written dereferences past the slots. */
  lemma SlotsRunOut(p: Patch, cfg: Config) returns (es: seq<Event>)
    requires ValidConfig(cfg) && !p.clearByUser
    requires cfg.maxUsers > 1 && cfg.lobbyCount > 0 && cfg.maxLobbyUsers > 0
    ensures Run(p, Init(cfg), es) == Lost && InRange(cfg.maxUsers, es)
  {
    var es0, s := TwoLogins(p, cfg);
    if cfg.maxLobbyUsers == 1 {
      es := OneSlotIsFatal(p, Init(cfg), es0, s);
    } else {
      es := RoundsAreFatal(p, Init(cfg), es0, s, Empty(cfg.maxLobbyUsers), 2);
    }
  }

  // The lobby admits nobody, or its only possible user is number 0, and the user is inside exactly if it has slot 0.
  ghost predicate Tame(lobby: LobbyState, users: int) {
    lobby.max == 0 ||
    (users <= 1 && forall i :: 0 <= i < |lobby.slots| ==>
       lobby.slots[i] == if i == 0 && 0 in lobby.byIndex then Some(0) else None)
  }

  ghost predicate AllTame(s: ServerState) {
    forall l :: 0 <= l < |s.lobbies| ==> Tame(s.lobbies[l], |s.users|)
  }

  lemma TameEnter(p: Patch, lobby: LobbyState, users: int, u: int, id: string)
    requires LobbyShape(lobby) && Tame(lobby, users) && 0 <= u < users
    ensures lobby.Enter(p, u, id).Entered? && Tame(lobby.Enter(p, u, id).lobby, users)
  {
  }

  lemma TameLeave(p: Patch, lobby: LobbyState, users: int, u: int, id: string)
    requires !p.clearByUser && LobbyShape(lobby) && Tame(lobby, users) && 0 <= u < users
    ensures Tame(lobby.Leave(p, u, id).0, users)
  {
    Divergence.ClearsNumberedSlot(p, lobby.slots, u);
  }

  lemma LeaveLobbyStaysTame(p: Patch, s: ServerState, l: int, u: int)
    requires !p.clearByUser && AllTame(s) && 0 <= l < |s.lobbies| && LobbyShape(s.lobbies[l]) && 0 <= u < |s.users|
    ensures AllTame(s.LeaveLobby(p, l, u).0)
  {
    var lobby := s.lobbies[l];
    TameLeave(p, lobby, |s.users|, u, if u in lobby.byIndex then s.User(lobby.byIndex[u]).id else "");
  }

  // Rooms do not matter.
  lemma SameSlotsStayTame(s: ServerState, s': ServerState)
    requires AllTame(s) && SameLobbyEntries(s, s') && |s'.users| == |s.users|
    ensures AllTame(s')
  {
    forall l | 0 <= l < |s'.lobbies| ensures Tame(s'.lobbies[l], |s'.users|) {
      assert Tame(s.lobbies[l], |s.users|) && SameEntries(s.lobbies[l], s'.lobbies[l]);
    }
  }

  lemma RoomEnterStaysTame(s: ServerState, session: int, isCreate: bool, roomIndex: int, title: string)
    requires AllTame(s)
    ensures RoomEnter(s, session, isCreate, roomIndex, title).Done?
    ensures AllTame(RoomEnter(s, session, isCreate, roomIndex, title).state)
  {
    RoomEnterKeepsEntries(s, session, isCreate, roomIndex, title);
    SameSlotsStayTame(s, RoomEnter(s, session, isCreate, roomIndex, title).state);
  }

  lemma RoomLeaveStaysTame(s: ServerState, session: int)
    requires AllTame(s)
    ensures RoomLeave(s, session).Done? && AllTame(RoomLeave(s, session).state)
  {
    RoomLeaveKeepsEntries(s, session);
    SameSlotsStayTame(s, RoomLeave(s, session).state);
  }

  lemma LeaveAllStaysTame(p: Patch, s: ServerState, session: int)
    requires !p.clearByUser && Inv(s) && AllTame(s) && s.GetUser(session).Found?
    ensures AllTame(LeaveAll(p, s, s.bySession[session]).0)
  {
    var u := s.bySession[session];
    var l := s.User(u).lobby;
    LeaveAllInSteps(p, s, session);
    if s.User(u).domain == DomainRoom {
      RoomLeaveKeepsInv(s, session);
      RoomLeaveStaysTame(s, session);
      RoomLeaveKeepsEntries(s, session);
      var s1 := RoomLeave(s, session).state;
      assert |s1.users| == |s.users|;
      LeaveLobbyStaysTame(p, s1, l, u);
    } else if s.HasLobby(l) {
      LeaveLobbyStaysTame(p, s, l, u);
    }
  }

  lemma LobbyStepsStayTame(p: Patch, s: ServerState, session: int, l: int)
    requires !p.clearByUser && Inv(s) && AllTame(s)
    ensures LobbyEnter(p, s, session, l).Done? && AllTame(LobbyEnter(p, s, session, l).state)
    ensures LobbyLeave(p, s, session).Done? && AllTame(LobbyLeave(p, s, session).state)
  {
    if s.GetUser(session).Found? {
      var u := s.bySession[session];
      assert UserInv(s.users, s.free, u) && PlaceExists(s.users[u], s.lobbies);
      if s.HasLobby(l) {
        assert LobbyShape(s.lobbies[l]) && Tame(s.lobbies[l], |s.users|);
        TameEnter(p, s.lobbies[l], |s.users|, u, s.users[u].id);
      }
      if s.users[u].domain == DomainLobby {
        assert LobbyShape(s.lobbies[s.users[u].lobby]);
        LeaveLobbyStaysTame(p, s, s.users[u].lobby, u);
      }
    }
  }

  lemma ManagerStepsStayTame(p: Patch, s: ServerState, e: Event)
    requires AllTame(s) && (e.Close? || e.LoginReq?)
    requires e.Close? && s.GetUser(e.session).Found? ==> AllTame(LeaveAll(p, s, s.bySession[e.session]).0)
    ensures Step(p, s, e).Done? && AllTame(Step(p, s, e).state)
  {
    if e.LoginReq? {
      SameSlotsStayTame(s, s.AddUser(p, e.session, e.id, e.buffer).0);
    } else if s.GetUser(e.session).Found? {
      var s1 := LeaveAll(p, s, s.bySession[e.session]).0;
      SameSlotsStayTame(s1, s1.RemoveUser(p, e.session).0);
    }
  }

  lemma StepStaysTame(p: Patch, s: ServerState, e: Event)
    requires !p.clearByUser && Inv(s) && AllTame(s)
    ensures Step(p, s, e).Done? && AllTame(Step(p, s, e).state)
  {
    match e {
      case Close(session) =>
        if s.GetUser(session).Found? {
          LeaveAllStaysTame(p, s, session);
        }
        ManagerStepsStayTame(p, s, e);
      case LoginReq(_, _, _) => ManagerStepsStayTame(p, s, e);
      case LobbyEnterReq(session, lobbyId) => LobbyStepsStayTame(p, s, session, lobbyId);
      case LobbyLeaveReq(session) => LobbyStepsStayTame(p, s, session, 0);
      case RoomEnterReq(session, isCreate, roomIndex, title) =>
        RoomEnterStaysTame(s, session, isCreate, roomIndex, title);
      case RoomLeaveReq(session) => RoomLeaveStaysTame(s, session);
      case _ =>
    }
  }

  lemma {:induction false} TameRunsAreDefined(p: Patch, s: ServerState, es: seq<Event>)
    requires !p.clearByUser && Inv(s) && AllTame(s)
    ensures Run(p, s, es).Ran? && AllTame(Run(p, s, es).state)
    decreases |es|
  {
    if es != [] {
      StepStaysTame(p, s, es[0]);
      StepKeepsInv(p, s, es[0]);
      TameRunsAreDefined(p, Step(p, s, es[0]).state, es[1..]);
    }
  }

  // A configuration in which no slot can leak.
  predicate SlotsAreSafe(p: Patch, cfg: Config) {
    p.clearByUser || cfg.maxUsers <= 1 || cfg.lobbyCount == 0 || cfg.maxLobbyUsers == 0
  }

  lemma TameSlotsAgree(s: ServerState, l: nat)
    requires Inv(s) && l < |s.lobbies| && Tame(s.lobbies[l], |s.users|)
    ensures SlotsAgree(s.lobbies[l])
  {
    var lobby := s.lobbies[l];
    assert LobbyShape(lobby) && MembersAgree(s.users, lobby, l);
    forall u | u in lobby.byIndex ensures Some(u) in lobby.slots {
      assert lobby.byIndex != map[] && u == 0 && lobby.slots[0] == Some(0);
    }
  }

  lemma SafeRunsAreDefined(p: Patch, cfg: Config, es: seq<Event>)
    requires ValidConfig(cfg) && SlotsAreSafe(p, cfg)
    ensures Run(p, Init(cfg), es).Ran? && SlotsInv(Run(p, Init(cfg), es).state)
  {
    if p.clearByUser {
      Reachable.RepairedRunsAreDefined(p, cfg, es);
    } else {
      InitKeepsInv(cfg);
      forall l | 0 <= l < |Init(cfg).lobbies| ensures Tame(Init(cfg).lobbies[l], |Init(cfg).users|) {
        assert Init(cfg).lobbies[l] == NewLobby(l, cfg);
      }
      TameRunsAreDefined(p, Init(cfg), es);
      RunKeepsInv(p, Init(cfg), es);
      var s := Run(p, Init(cfg), es).state;
      forall l | 0 <= l < |s.lobbies| ensures SlotsAgree(s.lobbies[l]) {
        TameSlotsAgree(s, l);
      }
    }
  }

  /**
   * R2, exactly: every run is free of undefined behaviour if and only if R2 is repaired, or the server has room for
   * at most one user, or it has no lobby, or its lobbies admit nobody. Where not, the sessions that the network hands
   * out are enough to run into it.
   */
  lemma RunsAreDefinedIff(p: Patch, cfg: Config)
    requires ValidConfig(cfg)
    ensures (forall es :: Run(p, Init(cfg), es).Ran?) <==>
            p.clearByUser || cfg.maxUsers <= 1 || cfg.lobbyCount == 0 || cfg.maxLobbyUsers == 0
    ensures (forall es :: InRange(cfg.maxUsers, es) ==> Run(p, Init(cfg), es).Ran?) <==>
            p.clearByUser || cfg.maxUsers <= 1 || cfg.lobbyCount == 0 || cfg.maxLobbyUsers == 0
  {
    if SlotsAreSafe(p, cfg) {
      forall es ensures Run(p, Init(cfg), es).Ran? {
        SafeRunsAreDefined(p, cfg, es);
      }
    } else {
      var es := SlotsRunOut(p, cfg);
    }
  }

  // One visit of user 1 to an empty lobby leaves a slot behind that no member has.
  lemma VisitLeavesSlot(p: Patch, cfg: Config) returns (es: seq<Event>)
    requires ValidConfig(cfg) && !SlotsAreSafe(p, cfg)
    ensures InRange(cfg.maxUsers, es) && Run(p, Init(cfg), es).Ran? && !SlotsInv(Run(p, Init(cfg), es).state)
  {
    var s: ServerState;
    var slots := Empty(cfg.maxLobbyUsers);
    es, s := TwoLogins(p, cfg);
    FirstNullIsFirstFree(slots, 0, 0);
    es, s := EnterGoes(p, Init(cfg), es, s, slots, {}, 1, 0);
    es, s := LeaveGoes(p, Init(cfg), es, s, slots[0 := Some(1)], {} + {1}, 1);
    LeftBehind(p, s, slots);
  }

  lemma LeftBehind(p: Patch, s: ServerState, slots: seq<Option<int>>)
    requires !p.clearByUser && slots != [] && Shows(s, ClearSlot(p, slots[0 := Some(1)], 1), {} + {1} - {1})
    ensures !SlotsInv(s)
  {
    Divergence.ClearsNumberedSlot(p, slots[0 := Some(1)], 1);
    assert s.lobbies[0].slots[0] == Some(1) && 1 !in s.lobbies[0].byIndex;
    assert !SlotsAgree(s.lobbies[0]);
  }

  /** R2, exactly: slots and dictionaries agree throughout all runs under the same condition. */
  lemma SlotsAlwaysAgreeIff(p: Patch, cfg: Config)
    requires ValidConfig(cfg)
    ensures (forall es :: Run(p, Init(cfg), es).Ran? ==> SlotsInv(Run(p, Init(cfg), es).state)) <==>
            p.clearByUser || cfg.maxUsers <= 1 || cfg.lobbyCount == 0 || cfg.maxLobbyUsers == 0
    ensures (forall es :: InRange(cfg.maxUsers, es) && Run(p, Init(cfg), es).Ran? ==>
               SlotsInv(Run(p, Init(cfg), es).state)) <==>
            p.clearByUser || cfg.maxUsers <= 1 || cfg.lobbyCount == 0 || cfg.maxLobbyUsers == 0
  {
    if SlotsAreSafe(p, cfg) {
      forall es ensures Run(p, Init(cfg), es).Ran? ==> SlotsInv(Run(p, Init(cfg), es).state) {
        SafeRunsAreDefined(p, cfg, es);
      }
    } else {
      var es := VisitLeavesSlot(p, cfg);
    }
  }
}
