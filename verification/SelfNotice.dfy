/**
 * A session that is told of its own close: a run in which it happens, and the exact configurations in which none does.
 */
module SelfNotice {
  import opened Types
  import opened State
  import opened Handlers
  import opened Invariant
  import opened Closing
  import opened Reachable
  import opened Runs
  import Sessions
  import opened PoolSpace
  import Registry
  import SlotLeak
  import C = Configurations

  // A user at LOGIN enters lobby 0, whatever session it is reached by.
  lemma LobbyIsEntered(p: Patch, s0: ServerState, es: seq<Event>, s: ServerState, session: int, u: int)
    returns (es': seq<Event>, s': ServerState)
    requires Takes(p, s0, es, s) && Inv(s) && s.GetUser(session) == Found(u) && s.users[u].domain == DomainLogin
    requires |s.lobbies| > 0 && |s.lobbies[0].byIndex.Keys| < s.lobbies[0].max
    requires FirstFree(s.lobbies[0].slots, 0) < |s.lobbies[0].slots|
    ensures Takes(p, s0, es', s') && Inv(s') && es' == es + [LobbyEnterReq(session, 0)]
    ensures s'.bySession == s.bySession && s'.users == s.users[u := s.users[u].EnteredLobby(0)]
    ensures |s'.lobbies| > 0 && s'.lobbies[0].rooms == s.lobbies[0].rooms && s'.lobbies[0].max == s.lobbies[0].max
    ensures s'.lobbies[0].slots == s.lobbies[0].slots[FirstFree(s.lobbies[0].slots, 0) := Some(u)]
    ensures s'.lobbies[0].byIndex.Keys == s.lobbies[0].byIndex.Keys + {u}
  {
    assert UserInv(s.users, s.free, u) && MembersAgree(s.users, s.lobbies[0], 0) && s.lobbies[0].index == 0;
    SlotLeak.EnterTakesFirstFree(p, s.lobbies[0], u, s.users[u].id);
    es', s' := Advance(p, s0, es, s, LobbyEnterReq(session, 0));
  }

  // A member of lobby 0 joins its first room, which has room for it.
  lemma RoomIsJoined(p: Patch, s0: ServerState, es: seq<Event>, s: ServerState, session: int, u: int)
    returns (es': seq<Event>, s': ServerState)
    requires Takes(p, s0, es, s) && Inv(s) && s.GetUser(session) == Found(u)
    requires s.users[u].domain == DomainLobby && s.users[u].lobby == 0 && |s.lobbies[0].rooms| > 0
    requires var room := s.lobbies[0].rooms[0]; room.used && |room.members| < room.max
    ensures Takes(p, s0, es', s') && Inv(s') && es' == es + [RoomEnterReq(session, false, 0, "")]
    ensures s'.bySession == s.bySession && s'.users == s.users[u := s.users[u].EnteredRoom(0, 0)]
    ensures |s'.lobbies| > 0 && s'.lobbies[0].HasRoom(0)
    ensures s'.lobbies[0].rooms[0].members == s.lobbies[0].rooms[0].members + [u]
  {
    assert UserInv(s.users, s.free, u) && LobbyShape(s.lobbies[0]) && s.lobbies[0].rooms[0].index == 0;
    assert ChooseRoom(s.lobbies[0], false, 0, "") == Chosen(0, s.lobbies[0].rooms[0]);
    es', s' := Advance(p, s0, es, s, RoomEnterReq(session, false, 0, ""));
  }

  // A server for two clients in which both can meet in a room.
  predicate TwoCanMeet(cfg: Config) {
    && ValidConfig(cfg) && cfg.maxUsers == 2 && cfg.lobbyCount > 0 && cfg.maxLobbyUsers > 1
    && cfg.roomsPerLobby > 0 && cfg.maxRoomUsers > 1
  }

  // Users 0 and 1 both belong to session 0, but user 0 is reached by session 1; user 0 is in lobby 0.
  lemma CrossedUserEnters(p: Patch, cfg: Config) returns (es: seq<Event>, s: ServerState)
    requires TwoCanMeet(cfg) && !p.eraseBySession
    ensures es == [LoginReq(1, "a", 0), Close(1), LoginReq(0, "b", 1), LoginReq(0, "c", 2), LobbyEnterReq(1, 0)]
    ensures Takes(p, Init(cfg), es, s) && Inv(s) && s.GetUser(1) == Found(0) && s.GetUser(0) == Found(1)
    ensures s.User(0) == NewUser(0).LoggedIn(0, "c").EnteredLobby(0) && s.User(1) == NewUser(1).LoggedIn(0, "b")
    ensures |s.lobbies| > 0 && s.lobbies[0].max == cfg.maxLobbyUsers && s.lobbies[0].rooms == NewLobby(0, cfg).rooms
    ensures s.lobbies[0].slots == SlotLeak.Empty(cfg.maxLobbyUsers)[0 := Some(0)] && s.lobbies[0].byIndex.Keys == {0}
  {
    var es1, s1 := Sessions.SessionsAreCrossed(p, cfg);
    NewLobbyIsEmpty(cfg);
    assert s1.lobbies[0] == NewLobby(0, cfg);
    es, s := LobbyIsEntered(p, Init(cfg), es1, s1, 1, 0);
  }

  lemma NewLobbyIsEmpty(cfg: Config)
    requires 0 < cfg.maxLobbyUsers < 0x8000
    ensures var lobby := NewLobby(0, cfg);
            && lobby.max == cfg.maxLobbyUsers && lobby.slots == SlotLeak.Empty(cfg.maxLobbyUsers)
            && lobby.byIndex.Keys == {} && FirstFree(lobby.slots, 0) == 0
  {
    FirstNullIsFirstFree(NewLobby(0, cfg).slots, 0, 0);
  }

  // User 1 follows.
  lemma CrossedUsersEnter(p: Patch, cfg: Config) returns (es: seq<Event>, s: ServerState)
    requires TwoCanMeet(cfg) && !p.eraseBySession
    ensures es == [LoginReq(1, "a", 0), Close(1), LoginReq(0, "b", 1), LoginReq(0, "c", 2),
                   LobbyEnterReq(1, 0), LobbyEnterReq(0, 0)]
    ensures Takes(p, Init(cfg), es, s) && Inv(s) && s.GetUser(1) == Found(0) && s.GetUser(0) == Found(1)
    ensures s.User(0) == NewUser(0).LoggedIn(0, "c").EnteredLobby(0)
    ensures s.User(1) == NewUser(1).LoggedIn(0, "b").EnteredLobby(0)
    ensures |s.lobbies| > 0 && s.lobbies[0].HasRoom(0) && s.lobbies[0].rooms[0] == NewRoom(0, cfg)
  {
    var es1, s1 := CrossedUserEnters(p, cfg);
    FirstNullIsFirstFree(s1.lobbies[0].slots, 0, 1);
    C.FirstRoomIsNew(cfg);
    es, s := LobbyIsEntered(p, Init(cfg), es1, s1, 0, 1);
  }

  // They meet in its first room.
  lemma CrossedUsersMeet(p: Patch, cfg: Config) returns (es: seq<Event>, s: ServerState)
    requires TwoCanMeet(cfg) && !p.eraseBySession
    ensures es == [LoginReq(1, "a", 0), Close(1), LoginReq(0, "b", 1), LoginReq(0, "c", 2),
                   LobbyEnterReq(1, 0), LobbyEnterReq(0, 0), RoomEnterReq(1, true, 0, "t"), RoomEnterReq(0, false, 0, "")]
    ensures Takes(p, Init(cfg), es, s) && Inv(s) && s.GetUser(0) == Found(1)
    ensures s.User(0).session == 0 && s.User(1).id == "b"
    ensures s.User(1).domain == DomainRoom && s.User(1).lobby == 0 && s.User(1).room == 0
    ensures |s.lobbies| > 0 && s.lobbies[0].HasRoom(0) && s.lobbies[0].rooms[0].members == [0, 1]
  {
    var es1, s1 := CrossedUsersEnter(p, cfg);
    var es2, s2 := C.RoomIsCreated(p, Init(cfg), es1, s1, 1, 0);
    es, s := RoomIsJoined(p, Init(cfg), es2, s2, 0, 1);
  }

  /** R1 again, on one run: session 0 is told of its own close, by way of a user that carries its number. */
  lemma CloserHearsItself(p: Patch, cfg: Config) returns (es: seq<Event>, s: ServerState)
    requires TwoCanMeet(cfg) && !p.eraseBySession
    ensures es == [LoginReq(1, "a", 0), Close(1), LoginReq(0, "b", 1), LoginReq(0, "c", 2),
                   LobbyEnterReq(1, 0), LobbyEnterReq(0, 0), RoomEnterReq(1, true, 0, "t"), RoomEnterReq(0, false, 0, "")]
    ensures InRange(cfg.maxUsers, es) && Reached(p, cfg, es, s)
    ensures CloseSession(p, s, 0).sent == [Sent(0, LeaveUserNtf("b"))]
  {
    es, s := CrossedUsersMeet(p, cfg);
    OtherMemberHears(p, s);
  }

  lemma OtherMemberHears(p: Patch, s: ServerState)
    requires Inv(s) && s.GetUser(0) == Found(1)
    requires s.User(1).domain == DomainRoom && s.User(1).lobby == 0 && s.User(1).room == 0
    requires |s.lobbies| > 0 && s.lobbies[0].HasRoom(0) && s.lobbies[0].rooms[0].members == [0, 1]
    ensures CloseSession(p, s, 0).sent == [Sent(s.User(0).session, LeaveUserNtf(s.User(1).id))]
  {
    CloseNotifies(p, s, 0);
    assert Remaining([0, 1], 1) == [0];
    DeliverToOne(s.users, 0, LeaveUserNtf(s.User(1).id));
  }

  lemma DeliverToOne(users: seq<UserState>, u: int, packet: Packet)
    ensures Deliver(users, [u], packet) == [Sent(UserAt(users, u).session, packet)]
  {
  }

  // Users 0 and 1 are at LOGIN, each reached by the other's number, and user 1 carries the number 1 of user 0's session.
  ghost predicate Crossed(s: ServerState, cfg: Config) {
    && s.lobbies == Init(cfg).lobbies
    && s.GetUser(1) == Found(0) && s.GetUser(0) == Found(1) && s.User(1).session == 1
    && s.User(0).domain == DomainLogin && s.User(1).domain == DomainLogin
  }

  // Session 0 is left leading to entry 1, and entries 0 and 1 come last in the deque.
  ghost predicate Misled(p: Patch, s: ServerState, cfg: Config, k: nat) {
    && 2 <= k <= cfg.maxUsers && Inv(s) && |s.users| == cfg.maxUsers && s.lobbies == Init(cfg).lobbies
    && s.bySession == map[0 := 1] && s.free == From(k, cfg.maxUsers) + [0, 1] && Untried(p, s, k)
  }

  lemma SessionZeroMisled(p: Patch, cfg: Config) returns (es: seq<Event>, s: ServerState)
    requires ValidConfig(cfg) && cfg.maxUsers > 1 && !p.eraseBySession
    ensures es == [Nth(1, 0), Close(1), Nth(0, 1), Close(0)]
    ensures Takes(p, Init(cfg), es, s) && Misled(p, s, cfg, 2)
  {
    var es2, s2 := FirstVisitOfSessionOne(p, cfg);
    assert ([1] + From(2, cfg.maxUsers) + [0])[1..] == From(2, cfg.maxUsers) + [0];
    var es3, s3 := EntryTaken(p, cfg, es2, s2, 0, 1);
    assert s3.users[1] == NewUser(1).LoggedIn(0, Name(1)) && s3.bySession == map[1 := 0, 0 := 1];
    es, s := SessionZeroCloses(p, cfg, es3, s3);
  }

  lemma SessionZeroCloses(p: Patch, cfg: Config, es: seq<Event>, s: ServerState) returns (es': seq<Event>, s': ServerState)
    requires ValidConfig(cfg) && cfg.maxUsers > 1 && !p.eraseBySession && Takes(p, Init(cfg), es, s) && Inv(s)
    requires |s.users| == cfg.maxUsers && s.lobbies == Init(cfg).lobbies && Untried(p, s, 2)
    requires s.bySession == map[1 := 0, 0 := 1] && s.free == From(2, cfg.maxUsers) + [0]
    requires s.users[1] == NewUser(1).LoggedIn(0, Name(1))
    ensures es' == es + [Close(0)] && Takes(p, Init(cfg), es', s') && Misled(p, s', cfg, 2)
  {
    es', s' := Sessions.CloseGoes(p, Init(cfg), es, s, 0);
    assert Untried(p, s', 2) && s'.free == From(2, cfg.maxUsers) + [0, 1];
  }

  lemma FirstVisitOfSessionOne(p: Patch, cfg: Config) returns (es: seq<Event>, s: ServerState)
    requires ValidConfig(cfg) && cfg.maxUsers > 1 && !p.eraseBySession
    ensures es == [Nth(1, 0), Close(1)] && Takes(p, Init(cfg), es, s) && Inv(s) && |s.users| == cfg.maxUsers
    ensures s.lobbies == Init(cfg).lobbies && s.bySession == map[1 := 0] && Untried(p, s, 1)
    ensures s.free == [1] + From(2, cfg.maxUsers) + [0] && s.users[1] == NewUser(1)
  {
    Sessions.Start(p, cfg);
    assert Untried(p, Init(cfg), 0);
    var es1, s1 := EntryTaken(p, cfg, [], Init(cfg), 1, 0);
    assert s1.bySession == map[1 := 0] && s1.users[0] == NewUser(0).LoggedIn(1, Name(0));
    assert s1.free == [1] + From(2, cfg.maxUsers);
    es, s := Sessions.CloseGoes(p, Init(cfg), es1, s1, 1);
    assert Untried(p, s, 1);
  }

  // Session 0 uses up the entries before the last two.
  lemma {:induction false} EntriesUsedUp(p: Patch, cfg: Config, es: seq<Event>, s: ServerState, k: nat)
    returns (es': seq<Event>, s': ServerState)
    requires Takes(p, Init(cfg), es, s) && Misled(p, s, cfg, k) && InRange(cfg.maxUsers, es)
    ensures Takes(p, Init(cfg), es', s') && Misled(p, s', cfg, cfg.maxUsers) && InRange(cfg.maxUsers, es')
    decreases cfg.maxUsers - k
  {
    if k == cfg.maxUsers {
      es', s' := es, s;
    } else {
      var es1, s1 := EntryUsedUp(p, cfg, es, s, k);
      es', s' := EntriesUsedUp(p, cfg, es1, s1, k + 1);
    }
  }

  lemma EntryUsedUp(p: Patch, cfg: Config, es: seq<Event>, s: ServerState, k: nat)
    returns (es': seq<Event>, s': ServerState)
    requires Takes(p, Init(cfg), es, s) && Misled(p, s, cfg, k) && k < cfg.maxUsers && InRange(cfg.maxUsers, es)
    ensures Takes(p, Init(cfg), es', s') && Misled(p, s', cfg, k + 1) && InRange(cfg.maxUsers, es')
  {
    es', s' := EntryTaken(p, cfg, es, s, 0, k);
    DequeMovesOn(cfg.maxUsers, k);
    assert s'.free == From(k + 1, cfg.maxUsers) + [0, 1];
  }

  lemma DequeMovesOn(n: nat, k: nat)
    requires k < n
    ensures (From(k, n) + [0, 1])[1..] == From(k + 1, n) + [0, 1]
  {
  }

  // Session 1 logs in twice: it is reached as user 0, and user 1 carries its number too.
  lemma SessionOneTwice(p: Patch, cfg: Config, es: seq<Event>, s: ServerState)
    returns (es': seq<Event>, s': ServerState)
    requires ValidConfig(cfg) && Takes(p, Init(cfg), es, s) && Misled(p, s, cfg, cfg.maxUsers) && InRange(cfg.maxUsers, es)
    ensures Takes(p, Init(cfg), es', s') && Inv(s') && Crossed(s', cfg) && InRange(cfg.maxUsers, es')
  {
    assert s.free[0] == 0 && s.free[1] == 1;
    var es1, s1 := EntryTaken(p, cfg, es, s, 1, cfg.maxUsers);
    es', s' := EntryTaken(p, cfg, es1, s1, 1, cfg.maxUsers + 1);
    CrossedAtLast(cfg, s, s1, s');
  }

  lemma CrossedAtLast(cfg: Config, s: ServerState, s1: ServerState, s2: ServerState)
    requires |s.users| > 1 && s.lobbies == Init(cfg).lobbies && s.bySession == map[0 := 1]
    requires exists k: nat :: s1.users == s.users[0 := s.users[0].LoggedIn(1, Name(k))]
    requires exists k: nat :: s2.users == s1.users[1 := s1.users[1].LoggedIn(1, Name(k))]
    requires s1.bySession == Insert(s.bySession, 1, 0) && s2.bySession == Insert(s1.bySession, 1, 1)
    requires s2.lobbies == s.lobbies
    ensures Crossed(s2, cfg)
  {
  }

  lemma UsersCross(p: Patch, cfg: Config) returns (es: seq<Event>, s: ServerState)
    requires ValidConfig(cfg) && cfg.maxUsers > 1 && !p.eraseBySession
    ensures Takes(p, Init(cfg), es, s) && Inv(s) && Crossed(s, cfg) && InRange(cfg.maxUsers, es)
  {
    es, s := SessionZeroMisled(p, cfg);
    es, s := EntriesUsedUp(p, cfg, es, s, 2);
    es, s := SessionOneTwice(p, cfg, es, s);
  }

  // Both crossed users exist, and lobby 0 has these slots and members and an unused first room.
  ghost predicate Scene(s: ServerState, cfg: Config, slots: seq<Option<int>>, inside: set<int>) {
    && Inv(s) && s.GetUser(1) == Found(0) && s.GetUser(0) == Found(1) && s.User(1).session == 1
    && |s.lobbies| > 0 && s.lobbies[0].max == cfg.maxLobbyUsers
    && s.lobbies[0].slots == slots && s.lobbies[0].byIndex.Keys == inside
    && s.lobbies[0].HasRoom(0) && s.lobbies[0].rooms[0] == NewRoom(0, cfg)
  }

  lemma FirstScene(p: Patch, cfg: Config) returns (es: seq<Event>, s: ServerState)
    requires ValidConfig(cfg) && cfg.maxUsers > 1 && !p.eraseBySession
    requires cfg.lobbyCount > 0 && cfg.maxLobbyUsers > 0 && cfg.roomsPerLobby > 0
    ensures Takes(p, Init(cfg), es, s) && InRange(cfg.maxUsers, es)
    ensures Scene(s, cfg, SlotLeak.Empty(cfg.maxLobbyUsers)[0 := Some(0)], {0})
    ensures s.User(0).domain == DomainLobby && s.User(0).lobby == 0 && s.User(1).domain == DomainLogin
  {
    var es1, s1 := UsersCross(p, cfg);
    NewLobbyIsEmpty(cfg);
    C.FirstRoomIsNew(cfg);
    assert s1.lobbies[0] == NewLobby(0, cfg);
    es, s := LobbyIsEntered(p, Init(cfg), es1, s1, 1, 0);
    InRangeAppend(cfg.maxUsers, es1, LobbyEnterReq(1, 0));
  }

  // A user alone in the first room leaves it as it was, but keeps its index.
  lemma RoomIsTried(p: Patch, cfg: Config, es: seq<Event>, s: ServerState, slots: seq<Option<int>>)
    returns (es': seq<Event>, s': ServerState)
    requires ValidConfig(cfg) && cfg.maxUsers > 1 && cfg.maxRoomUsers > 0
    requires Takes(p, Init(cfg), es, s) && InRange(cfg.maxUsers, es) && Scene(s, cfg, slots, {0})
    requires s.User(0).domain == DomainLobby && s.User(0).lobby == 0 && s.User(1).domain == DomainLogin
    ensures Takes(p, Init(cfg), es', s') && InRange(cfg.maxUsers, es') && Scene(s', cfg, slots, {0})
    ensures s'.User(0).domain == DomainLobby && s'.User(0).lobby == 0 && s'.User(0).room == 0
    ensures s'.User(1).domain == DomainLogin
  {
    var room := s.lobbies[0].rooms[0];
    var es1, s1 := C.RoomIsCreated(p, Init(cfg), es, s, 1, 0);
    InRangeAppend(cfg.maxUsers, es, RoomEnterReq(1, true, 0, "t"));
    es', s' := C.RoomIsLeft(p, Init(cfg), es1, s1, 1, 0);
    InRangeAppend(cfg.maxUsers, es1, RoomLeaveReq(1));
    C.RoomGoesBack(s, room.(used := true, title := "t", members := [0]), room);
  }

  lemma OwnSlotIsLeft(p: Patch, m: nat)
    requires m > 0
    ensures ClearSlot(p, SlotLeak.Empty(m)[0 := Some(0)], 0) == SlotLeak.Empty(m)
  {
    assert SlotMatches(p, SlotLeak.Empty(m)[0 := Some(0)], 0, 0);
  }

  // A member of lobby 0 leaves it, whatever session it is reached by.
  lemma LobbyLeaveOf(p: Patch, s: ServerState, session: int, u: int)
    requires Inv(s) && s.GetUser(session) == Found(u) && s.User(u).domain == DomainLobby && s.User(u).lobby == 0
    requires |s.lobbies| > 0
    ensures var o := LobbyLeave(p, s, session);
            && o.Done? && o.state.users == s.users[u := s.users[u].LeftLobby()] && o.state.bySession == s.bySession
            && |o.state.lobbies| > 0 && o.state.lobbies[0].max == s.lobbies[0].max
            && o.state.lobbies[0].rooms == s.lobbies[0].rooms
            && o.state.lobbies[0].slots == ClearSlot(p, s.lobbies[0].slots, u)
            && o.state.lobbies[0].byIndex.Keys == s.lobbies[0].byIndex.Keys - {u}
  {
    PlacedUserIsListed(s, u);
    assert LobbyShape(s.lobbies[0]);
    SlotLeak.LeavingTakesKey(p, s.lobbies[0], u, s.User(u).id);
  }

  // User 0 leaves the lobby; its slot is number 0, so both searches find it.
  lemma LobbyIsLeft(p: Patch, cfg: Config, es: seq<Event>, s: ServerState) returns (es': seq<Event>, s': ServerState)
    requires ValidConfig(cfg) && cfg.maxUsers > 1 && cfg.maxLobbyUsers > 0
    requires Takes(p, Init(cfg), es, s) && InRange(cfg.maxUsers, es)
    requires Scene(s, cfg, SlotLeak.Empty(cfg.maxLobbyUsers)[0 := Some(0)], {0})
    requires s.User(0).domain == DomainLobby && s.User(0).lobby == 0 && s.User(1).domain == DomainLogin
    ensures Takes(p, Init(cfg), es', s') && InRange(cfg.maxUsers, es')
    ensures Scene(s', cfg, SlotLeak.Empty(cfg.maxLobbyUsers), {})
    ensures s'.User(0) == s.User(0).LeftLobby() && s'.User(1) == s.User(1)
  {
    OwnSlotIsLeft(p, cfg.maxLobbyUsers);
    LobbyLeaveOf(p, s, 1, 0);
    es', s' := Advance(p, Init(cfg), es, s, LobbyLeaveReq(1));
    InRangeAppend(cfg.maxUsers, es, LobbyLeaveReq(1));
  }

  // Stale indices: user 0 has been in the room where user 1 is alone now, and session 1 hears of its own close.
  lemma StaleCloserIsTold(p: Patch, cfg: Config) returns (es: seq<Event>, s: ServerState)
    requires ValidConfig(cfg) && cfg.maxUsers > 1 && !p.eraseBySession && !p.notifyIfMember
    requires cfg.lobbyCount > 0 && cfg.maxLobbyUsers > 0 && cfg.roomsPerLobby > 0 && cfg.maxRoomUsers > 0
    ensures Reached(p, cfg, es, s) && InRange(cfg.maxUsers, es) && IsSentTo(CloseSession(p, s, 1).sent, 1)
  {
    es, s := FirstScene(p, cfg);
    es, s := RoomIsTried(p, cfg, es, s, SlotLeak.Empty(cfg.maxLobbyUsers)[0 := Some(0)]);
    es, s := LobbyIsLeft(p, cfg, es, s);
    es, s := UserOneMovesIn(p, cfg, es, s);
    CarrierIsTold(p, s);
  }

  lemma UserOneMovesIn(p: Patch, cfg: Config, es: seq<Event>, s: ServerState) returns (es': seq<Event>, s': ServerState)
    requires ValidConfig(cfg) && cfg.maxUsers > 1 && cfg.maxLobbyUsers > 0 && cfg.maxRoomUsers > 0
    requires Takes(p, Init(cfg), es, s) && InRange(cfg.maxUsers, es)
    requires Scene(s, cfg, SlotLeak.Empty(cfg.maxLobbyUsers), {})
    requires s.User(0).lobby == 0 && s.User(0).room == 0 && s.User(1).domain == DomainLogin
    ensures Takes(p, Init(cfg), es', s') && InRange(cfg.maxUsers, es') && Inv(s') && s'.GetUser(1) == Found(0)
    ensures s'.User(0) == s.User(0) && s'.User(1).session == 1
    ensures |s'.lobbies| > 0 && s'.lobbies[0].HasRoom(0) && 1 in s'.lobbies[0].rooms[0].members
  {
    FirstNullIsFirstFree(SlotLeak.Empty(cfg.maxLobbyUsers), 0, 0);
    var es1, s1 := LobbyIsEntered(p, Init(cfg), es, s, 0, 1);
    InRangeAppend(cfg.maxUsers, es, LobbyEnterReq(0, 0));
    es', s' := C.RoomIsCreated(p, Init(cfg), es1, s1, 0, 1);
    InRangeAppend(cfg.maxUsers, es1, RoomEnterReq(0, true, 0, "t"));
  }

  lemma CarrierIsTold(p: Patch, s: ServerState)
    requires Inv(s) && s.GetUser(1) == Found(0) && s.User(0).lobby == 0 && s.User(0).room == 0
    requires !p.notifyIfMember || s.User(0).domain == DomainRoom
    requires |s.lobbies| > 0 && s.lobbies[0].HasRoom(0) && 1 in s.lobbies[0].rooms[0].members
    requires s.User(1).session == 1
    ensures IsSentTo(CloseSession(p, s, 1).sent, 1)
  {
    assert Hears(p, s, 0, 1);
    CloserIsToldIff(p, s, 1);
  }

  // In one room: the same, whatever R6.
  lemma MemberCloserIsTold(p: Patch, cfg: Config) returns (es: seq<Event>, s: ServerState)
    requires ValidConfig(cfg) && cfg.maxUsers > 1 && !p.eraseBySession
    requires cfg.lobbyCount > 0 && cfg.maxLobbyUsers > 1 && cfg.roomsPerLobby > 0 && cfg.maxRoomUsers > 1
    ensures Reached(p, cfg, es, s) && InRange(cfg.maxUsers, es) && IsSentTo(CloseSession(p, s, 1).sent, 1)
  {
    var es1, s1 := FirstScene(p, cfg);
    var es2, s2 := UserOneFollows(p, cfg, es1, s1);
    var es3, s3 := C.RoomIsCreated(p, Init(cfg), es2, s2, 1, 0);
    InRangeAppend(cfg.maxUsers, es2, RoomEnterReq(1, true, 0, "t"));
    es, s := RoomIsJoined(p, Init(cfg), es3, s3, 0, 1);
    InRangeAppend(cfg.maxUsers, es3, RoomEnterReq(0, false, 0, ""));
    CarrierIsTold(p, s);
  }

  lemma UserOneFollows(p: Patch, cfg: Config, es: seq<Event>, s: ServerState) returns (es': seq<Event>, s': ServerState)
    requires ValidConfig(cfg) && cfg.maxUsers > 1 && cfg.maxLobbyUsers > 1
    requires Takes(p, Init(cfg), es, s) && InRange(cfg.maxUsers, es)
    requires Scene(s, cfg, SlotLeak.Empty(cfg.maxLobbyUsers)[0 := Some(0)], {0})
    requires s.User(0).domain == DomainLobby && s.User(0).lobby == 0 && s.User(1).domain == DomainLogin
    ensures Takes(p, Init(cfg), es', s') && InRange(cfg.maxUsers, es') && Inv(s')
    ensures s'.GetUser(1) == Found(0) && s'.GetUser(0) == Found(1) && s'.User(0) == s.User(0)
    ensures s'.User(1).session == 1 && s'.User(1).domain == DomainLobby && s'.User(1).lobby == 0
    ensures |s'.lobbies| > 0 && s'.lobbies[0].HasRoom(0) && s'.lobbies[0].rooms[0] == NewRoom(0, cfg)
  {
    FirstNullIsFirstFree(s.lobbies[0].slots, 0, 1);
    es', s' := LobbyIsEntered(p, Init(cfg), es, s, 0, 1);
    InRangeAppend(cfg.maxUsers, es, LobbyEnterReq(0, 0));
  }

  // No session would now be told of its own close.
  ghost predicate NobodyHearsItself(p: Patch, s: ServerState) {
    forall session :: s.GetUser(session).Found? ==> !IsSentTo(CloseSession(p, s, session).sent, session)
  }

  // Two users can be in one room, or as written one in the room that the other still carries.
  predicate CloserCanMeetOther(p: Patch, cfg: Config) {
    && cfg.maxUsers > 1 && cfg.lobbyCount > 0 && cfg.roomsPerLobby > 0
    && (if p.notifyIfMember then cfg.maxLobbyUsers > 1 && cfg.maxRoomUsers > 1
        else cfg.maxLobbyUsers > 0 && cfg.maxRoomUsers > 0)
  }

  // Somebody who is to hear of a close sits in a room, and if R6 is repaired so does the closer.
  lemma HearersNeedRoom(p: Patch, cfg: Config, es: seq<Event>, s: ServerState, u: int, v: int)
    requires Reached(p, cfg, es, s) && 0 <= u < |s.users| && Hears(p, s, u, v)
    ensures CloserCanMeetOther(p, cfg)
  {
    var l, r := s.User(u).lobby, s.User(u).room;
    ReachedInv(p, cfg, es, s);
    PoolIsConserved(p, cfg, es, s);
    RoomIsFoundFromUser(p, cfg, es, s, l, r, v);
    C.RoomUserMeansRooms(p, cfg, es, s, v);
    LimitsHold(p, cfg, es, s, l);
    if p.notifyIfMember {
      PlacedUserIsListed(s, u);
      PlacedUserIsListed(s, v);
      SubsetSize({u, v}, s.lobbies[l].byIndex.Keys);
      TwoFit(s.lobbies[l].rooms[r].members, u, v);
    }
  }

  lemma TwoFit(members: seq<int>, u: int, v: int)
    requires u in members && v in members && u != v
    ensures |members| > 1
  {
  }

  /**
   * R1, exactly: in all runs no session is told of its own close if and only if R1 is repaired, or the configuration
   * does not let two users meet; the sessions that the network hands out are enough to show it.
   */
  lemma NobodyHearsItselfIff(p: Patch, cfg: Config)
    requires ValidConfig(cfg)
    ensures (forall es :: Run(p, Init(cfg), es).Ran? ==> NobodyHearsItself(p, Run(p, Init(cfg), es).state)) <==>
            p.eraseBySession || !CloserCanMeetOther(p, cfg)
    ensures (forall es :: InRange(cfg.maxUsers, es) && Run(p, Init(cfg), es).Ran? ==>
               NobodyHearsItself(p, Run(p, Init(cfg), es).state)) <==>
            p.eraseBySession || !CloserCanMeetOther(p, cfg)
  {
    if p.eraseBySession || !CloserCanMeetOther(p, cfg) {
      forall es | Run(p, Init(cfg), es).Ran? ensures NobodyHearsItself(p, Run(p, Init(cfg), es).state) {
        NobodyIsTold(p, cfg, es, Run(p, Init(cfg), es).state);
      }
    } else {
      var es := SomeCloserIsTold(p, cfg);
    }
  }

  lemma SomeCloserIsTold(p: Patch, cfg: Config) returns (es: seq<Event>)
    requires ValidConfig(cfg) && !p.eraseBySession && CloserCanMeetOther(p, cfg)
    ensures InRange(cfg.maxUsers, es) && Run(p, Init(cfg), es).Ran?
    ensures !NobodyHearsItself(p, Run(p, Init(cfg), es).state)
  {
    var s: ServerState;
    if p.notifyIfMember {
      es, s := MemberCloserIsTold(p, cfg);
    } else {
      es, s := StaleCloserIsTold(p, cfg);
    }
    assert s.GetUser(1).Found?;
  }

  lemma NobodyIsTold(p: Patch, cfg: Config, es: seq<Event>, s: ServerState)
    requires Reached(p, cfg, es, s) && (p.eraseBySession || !CloserCanMeetOther(p, cfg))
    ensures NobodyHearsItself(p, s)
  {
    ReachedInv(p, cfg, es, s);
    forall session | s.GetUser(session).Found? ensures !IsSentTo(CloseSession(p, s, session).sent, session) {
      var u := s.bySession[session];
      if p.eraseBySession {
        Sessions.NoCloserIsTold(p, cfg, es, s, session);
      } else {
        CloserIsToldIff(p, s, session);
        forall v | Hears(p, s, u, v) ensures false {
          HearersNeedRoom(p, cfg, es, s, u, v);
        }
      }
    }
  }
}
