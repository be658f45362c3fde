/**
 * The other defects over all runs of a configuration: a run from the start that shows each of them, over sessions that
 * the network hands out, and the exact configurations in which no run does.
 */
module Configurations {
  import opened Types
  import opened State
  import opened Handlers
  import opened Invariant
  import Closing
  import opened Reachable
  import opened Runs
  import opened Divergence
  import Sessions
  import SlotLeak
  import RoomLeak

  // R3

  /** R3, on one run: two clients are logged in under the same ID. */
  lemma SameIdTwice(p: Patch, cfg: Config) returns (es: seq<Event>, s: ServerState)
    requires ValidConfig(cfg) && cfg.maxUsers > 1 && !p.keyByText
    ensures es == [LoginReq(0, "a", 0), LoginReq(1, "a", 1)] && InRange(cfg.maxUsers, es) && Reached(p, cfg, es, s)
    ensures s.GetUser(0) == Found(0) && s.GetUser(1) == Found(1) && s.User(0).id == s.User(1).id == "a"
  {
    var s0 := Init(cfg);
    InitKeepsInv(cfg);
    NoEvents(p, s0);
    FirstLogin(p, cfg, 0);
    es, s := Advance(p, s0, [], s0, LoginReq(0, "a", 0));
    assert s.free[0] == 1 && s.byId == map[PacketBuffer(0) := 0];
    es, s := Advance(p, s0, es, s, LoginReq(1, "a", 1));
  }

  /** R3, exactly: in all runs confirmed users have distinct IDs if and only if R3 is repaired or there is at most one. */
  lemma IdsStayDistinctIff(p: Patch, cfg: Config)
    requires ValidConfig(cfg)
    ensures (forall es :: Run(p, Init(cfg), es).Ran? ==> DistinctIds(Run(p, Init(cfg), es).state))
            <==> p.keyByText || cfg.maxUsers <= 1
    ensures (forall es :: InRange(cfg.maxUsers, es) && Run(p, Init(cfg), es).Ran? ==>
               DistinctIds(Run(p, Init(cfg), es).state))
            <==> p.keyByText || cfg.maxUsers <= 1
  {
    if p.keyByText || cfg.maxUsers <= 1 {
      forall es | Run(p, Init(cfg), es).Ran? ensures DistinctIds(Run(p, Init(cfg), es).state) {
        var s := Run(p, Init(cfg), es).state;
        PoolIsConserved(p, cfg, es, s);
        forall u, v | 0 <= u < v < |s.users| && s.users[u].confirmed && s.users[v].confirmed
          ensures s.users[u].id != s.users[v].id
        {
          if s.users[u].id == s.users[v].id {
            IdsAreNeverShared(p, cfg, es, s, u, v);
          }
        }
      }
    } else {
      var es, s := SameIdTwice(p, cfg);
      assert s.users[0].id == s.users[1].id;
      assert !DistinctIds(Run(p, Init(cfg), es).state);
    }
  }

  // R4

  // Every list of lobbies that the server would send now reports the members of each lobby.
  ghost predicate ListsAreTrue(p: Patch, s: ServerState) {
    forall session :: s.GetUser(session).Found? && s.User(s.bySession[session]).domain == DomainLogin ==>
      LobbyList(p, s, session).sent == [Sent(session, LobbyListRes(NONE, TrueInfos(s)))]
  }

  function TrueInfos(s: ServerState): seq<LobbyInfo> {
    seq(|s.lobbies|, l requires 0 <= l < |s.lobbies| => LobbyInfo(l, |s.lobbies[l].byIndex|, s.lobbies[l].max))
  }

  lemma InfosAreTrue(p: Patch, s: ServerState)
    requires Inv(s)
    requires forall l :: 0 <= l < |s.lobbies| ==>
               s.lobbies[l].max < 0x8000 && (p.countMembers || s.lobbies[l].max == 0)
    ensures LobbyInfos(p, s.lobbies) == TrueInfos(s)
  {
    forall l | 0 <= l < |s.lobbies| ensures LobbyInfos(p, s.lobbies)[l] == TrueInfos(s)[l] {
      assert LobbyShape(s.lobbies[l]);
      CountIsRightIffFull(p, s.lobbies[l]);
    }
  }

  /** R4, on one run: a lobby with one member and two slots is listed with two users. */
  lemma OneMemberCountedAsTwo() returns (cfg: Config, es: seq<Event>, s: ServerState)
    ensures cfg == Config(2, 1, 2, 0, 0) && InRange(cfg.maxUsers, es) && Reached(AS_WRITTEN, cfg, es, s)
    ensures |s.lobbies| == 1 && s.lobbies[0].byIndex.Keys == {0}
    ensures LobbyList(AS_WRITTEN, s, 1).sent == [Sent(1, LobbyListRes(NONE, [LobbyInfo(0, 2, 2)]))]
  {
    cfg := Config(2, 1, 2, 0, 0);
    es, s := FirstOfTwoEnters(AS_WRITTEN, cfg);
    LobbiesStay(AS_WRITTEN, cfg, es, s);
    SlotsAreListed(AS_WRITTEN, s, 0);
    assert s.GetUser(1) == Found(1) && s.User(1).domain == DomainLogin;
    assert LobbyInfos(AS_WRITTEN, s.lobbies) == [LobbyInfo(0, 2, 2)];
  }

  lemma FirstOfTwoEnters(p: Patch, cfg: Config) returns (es: seq<Event>, s: ServerState)
    requires ValidConfig(cfg) && cfg.maxUsers > 1 && cfg.lobbyCount > 0 && cfg.maxLobbyUsers > 0
    ensures Reached(p, cfg, es, s) && InRange(cfg.maxUsers, es)
    ensures SlotLeak.Shows(s, SlotLeak.Empty(cfg.maxLobbyUsers)[0 := Some(0)], {0})
  {
    var slots := SlotLeak.Empty(cfg.maxLobbyUsers);
    es, s := SlotLeak.TwoLogins(p, cfg);
    FirstNullIsFirstFree(slots, 0, 0);
    es, s := SlotLeak.EnterGoes(p, Init(cfg), es, s, slots, {}, 0, 0);
    assert {} + {0} == {0};
  }

  // As written, a lobby is listed with the number of its slots.
  lemma SlotsAreListed(p: Patch, s: ServerState, l: nat)
    requires Inv(s) && !p.countMembers && l < |s.lobbies| && s.lobbies[l].max < 0x8000
    ensures LobbyInfos(p, s.lobbies)[l] == LobbyInfo(l, s.lobbies[l].max, s.lobbies[l].max)
  {
    assert LobbyShape(s.lobbies[l]);
    ShortIsExact(|s.lobbies[l].slots|);
  }

  lemma LobbiesStay(p: Patch, cfg: Config, es: seq<Event>, s: ServerState)
    requires Reached(p, cfg, es, s)
    ensures |s.lobbies| == cfg.lobbyCount && forall l :: 0 <= l < |s.lobbies| ==> s.lobbies[l].max == cfg.maxLobbyUsers
  {
    InitKeepsInv(cfg);
    RunKeepsLimits(p, Init(cfg), es);
    forall l | 0 <= l < |s.lobbies| ensures s.lobbies[l].max == cfg.maxLobbyUsers {
      LimitsHold(p, cfg, es, s, l);
    }
  }

  /**
   * R4, exactly: in all runs the lists of lobbies report the true numbers of members if and only if R4 is repaired,
   * or nobody can log in, or there is no lobby, or the lobbies admit nobody.
   */
  lemma ListsAreTrueIff(p: Patch, cfg: Config)
    requires ValidConfig(cfg)
    ensures (forall es :: Run(p, Init(cfg), es).Ran? ==> ListsAreTrue(p, Run(p, Init(cfg), es).state))
            <==> p.countMembers || cfg.maxUsers == 0 || cfg.lobbyCount == 0 || cfg.maxLobbyUsers == 0
    ensures (forall es :: InRange(cfg.maxUsers, es) && Run(p, Init(cfg), es).Ran? ==>
               ListsAreTrue(p, Run(p, Init(cfg), es).state))
            <==> p.countMembers || cfg.maxUsers == 0 || cfg.lobbyCount == 0 || cfg.maxLobbyUsers == 0
  {
    if p.countMembers || cfg.maxUsers == 0 || cfg.lobbyCount == 0 || cfg.maxLobbyUsers == 0 {
      forall es | Run(p, Init(cfg), es).Ran? ensures ListsAreTrue(p, Run(p, Init(cfg), es).state) {
        TrueLists(p, cfg, es, Run(p, Init(cfg), es).state);
      }
    } else {
      var es, s := FreshServerListsFullLobbies(p, cfg);
      assert !ListsAreTrue(p, Run(p, Init(cfg), es).state);
    }
  }

  lemma TrueLists(p: Patch, cfg: Config, es: seq<Event>, s: ServerState)
    requires Reached(p, cfg, es, s)
    requires p.countMembers || cfg.maxUsers == 0 || cfg.lobbyCount == 0 || cfg.maxLobbyUsers == 0
    ensures ListsAreTrue(p, s)
  {
    ReachedInv(p, cfg, es, s);
    PoolIsConserved(p, cfg, es, s);
    LobbiesStay(p, cfg, es, s);
    if cfg.maxUsers > 0 {
      InfosAreTrue(p, s);
    }
  }

  // The first client of a fresh server is told that all lobbies are full.
  lemma FreshServerListsFullLobbies(p: Patch, cfg: Config) returns (es: seq<Event>, s: ServerState)
    requires ValidConfig(cfg) && !p.countMembers
    requires cfg.maxUsers > 0 && cfg.lobbyCount > 0 && cfg.maxLobbyUsers > 0
    ensures Reached(p, cfg, es, s) && InRange(cfg.maxUsers, es) && !ListsAreTrue(p, s)
  {
    var s0 := Init(cfg);
    InitKeepsInv(cfg);
    NoEvents(p, s0);
    FirstLogin(p, cfg, 0);
    es, s := Advance(p, s0, [], s0, LoginReq(0, "a", 0));
    LobbiesStay(p, cfg, es, s);
    assert s.lobbies[0].byIndex == map[] by { assert s.lobbies[0] == NewLobby(0, cfg); }
    SlotsAreListed(p, s, 0);
    FalseListIsSent(p, s, 0);
  }

  lemma FalseListIsSent(p: Patch, s: ServerState, session: int)
    requires s.GetUser(session).Found? && s.User(s.bySession[session]).domain == DomainLogin
    requires |s.lobbies| > 0 && LobbyInfos(p, s.lobbies)[0].userCount != |s.lobbies[0].byIndex|
    ensures !ListsAreTrue(p, s)
  {
    assert LobbyInfos(p, s.lobbies)[0] != TrueInfos(s)[0];
    assert LobbyList(p, s, session).sent[0].packet.lobbies != TrueInfos(s);
  }

  // R5

  // A chat message of any user in a room would now reach exactly the other members.
  ghost predicate ChatsReachTheOthers(p: Patch, s: ServerState) {
    forall session :: s.GetUser(session).Found? && s.User(s.bySession[session]).domain == DomainRoom ==>
      ChatReachesOthers(p, s, s.bySession[session])
  }

  ghost predicate ChatReachesOthers(p: Patch, s: ServerState, u: int) {
    Closing.CarriesRoom(s, u) &&
    forall v :: v in ChatReceivers(p, s, u) <==> v in s.lobbies[s.User(u).lobby].rooms[s.User(u).room].members && v != u
  }

  // Somebody can be in a room only where rooms can be created and hold users.
  lemma RoomUserMeansRooms(p: Patch, cfg: Config, es: seq<Event>, s: ServerState, u: int)
    requires Reached(p, cfg, es, s) && 0 <= u < |s.users| && s.users[u].domain == DomainRoom
    ensures RoomLeak.RoomsCanBeCreated(cfg) && cfg.maxRoomUsers > 0
  {
    var l, r := s.users[u].lobby, s.users[u].room;
    ReachedInv(p, cfg, es, s);
    PlacedUserIsListed(s, u);
    LobbiesStay(p, cfg, es, s);
    PoolIsConserved(p, cfg, es, s);
    LimitsHold(p, cfg, es, s, l);
    assert |s.lobbies[l].byIndex| > 0 && |s.lobbies[l].rooms[r].members| > 0;
    InitKeepsInv(cfg);
    RunKeepsLimits(p, Init(cfg), es);
    assert Init(cfg).lobbies[l] == NewLobby(l, cfg) && SameLobbyLimits(Init(cfg).lobbies[l], s.lobbies[l]);
  }

  // A member of lobby 0 creates the first room for itself.
  lemma RoomIsCreated(p: Patch, s0: ServerState, es: seq<Event>, s: ServerState, session: int, u: int)
    returns (es': seq<Event>, s': ServerState)
    requires Takes(p, s0, es, s) && Inv(s) && s.GetUser(session) == Found(u)
    requires s.users[u].domain == DomainLobby && s.users[u].lobby == 0 && |s.lobbies[0].rooms| > 0
    requires var room := s.lobbies[0].rooms[0]; !room.used && room.max > 0
    ensures Takes(p, s0, es', s') && Inv(s') && s'.bySession == s.bySession
    ensures es' == es + [RoomEnterReq(session, true, 0, "t")]
    ensures s'.users == s.users[u := s.users[u].EnteredRoom(0, 0)]
    ensures var room := s.lobbies[0].rooms[0];
            s' == s.WithRoom(0, 0, room.(used := true, title := "t", members := [u])).(users := s'.users)
  {
    var room := s.lobbies[0].rooms[0];
    assert UserInv(s.users, s.free, u) && LobbyShape(s.lobbies[0]) && RoomShape(room);
    assert s.lobbies[0].AllocRoom(0) == 0 && room.members + [u] == [u];
    assert ChooseRoom(s.lobbies[0], true, 0, "t") == Chosen(0, room.(used := true, title := "t"));
    es', s' := Advance(p, s0, es, s, RoomEnterReq(session, true, 0, "t"));
  }

  /** R5, on one run: a client on session 1 hears its own chat message. */
  lemma SenderHearsItself(p: Patch, cfg: Config) returns (es: seq<Event>, s: ServerState)
    requires ValidConfig(cfg) && cfg.maxUsers > 1 && RoomLeak.RoomsCanBeCreated(cfg) && cfg.maxRoomUsers > 0
    requires !p.passByUser
    ensures es == [LoginReq(1, "a", 0), LobbyEnterReq(1, 0), RoomEnterReq(1, true, 0, "t")] && InRange(cfg.maxUsers, es)
    ensures Reached(p, cfg, es, s) && s.GetUser(1) == Found(0)
    ensures s.User(0).domain == DomainRoom && s.User(0).session == 1
    ensures RoomChat(p, s, 1, "hi") == Done(s, NONE, [Sent(1, ChatNtf("a", "hi")), Sent(1, RoomEnterRes(NONE))])
  {
    es, s := RoomLeak.FirstUserEnters(p, cfg, 1);
    assert s.lobbies[0].rooms[0] == NewRoom(0, cfg);
    es, s := RoomIsCreated(p, Init(cfg), es, s, 1, 0);
    ChatGoesToReceivers(p, s, 1, "hi");
    AddressedAlone(0, 1);
    assert ChatReceivers(p, s, 0) == [0];
  }

  lemma AddressedAlone(u: int, pass: int)
    requires u != pass
    ensures Closing.Addressed([u], pass) == [u]
  {
  }

  /**
   * R5, exactly: in all runs over the sessions that the network hands out, chat reaches exactly the other members of
   * the room if and only if R5 is repaired, or there is at most one client, or nobody can ever be in a room.
   */
  lemma ChatsReachTheOthersIff(p: Patch, cfg: Config)
    requires ValidConfig(cfg)
    ensures (forall es :: InRange(cfg.maxUsers, es) && Run(p, Init(cfg), es).Ran? ==>
               ChatsReachTheOthers(p, Run(p, Init(cfg), es).state)) <==>
            p.passByUser || cfg.maxUsers <= 1 || !RoomLeak.RoomsCanBeCreated(cfg) || cfg.maxRoomUsers == 0
  {
    if p.passByUser || cfg.maxUsers <= 1 || !RoomLeak.RoomsCanBeCreated(cfg) || cfg.maxRoomUsers == 0 {
      forall es | InRange(cfg.maxUsers, es) && Run(p, Init(cfg), es).Ran?
        ensures ChatsReachTheOthers(p, Run(p, Init(cfg), es).state)
      {
        ChatsAreRight(p, cfg, es, Run(p, Init(cfg), es).state);
      }
    } else {
      var es := ChatReachesTheSender(p, cfg);
    }
  }

  lemma ChatsAreRight(p: Patch, cfg: Config, es: seq<Event>, s: ServerState)
    requires Reached(p, cfg, es, s) && InRange(cfg.maxUsers, es)
    requires p.passByUser || cfg.maxUsers <= 1 || !RoomLeak.RoomsCanBeCreated(cfg) || cfg.maxRoomUsers == 0
    ensures ChatsReachTheOthers(p, s)
  {
    ReachedInv(p, cfg, es, s);
    forall session | s.GetUser(session).Found? && s.User(s.bySession[session]).domain == DomainRoom
      ensures ChatReachesOthers(p, s, s.bySession[session])
    {
      RoomUserMeansRooms(p, cfg, es, s, s.bySession[session]);
      ChatReachesTheOthers(p, s, session);
      if cfg.maxUsers <= 1 {
        Sessions.SessionsStaySound(p, cfg, es, s);
      }
    }
  }

  lemma ChatReachesTheSender(p: Patch, cfg: Config) returns (es: seq<Event>)
    requires ValidConfig(cfg) && cfg.maxUsers > 1 && RoomLeak.RoomsCanBeCreated(cfg) && cfg.maxRoomUsers > 0
    requires !p.passByUser
    ensures InRange(cfg.maxUsers, es) && Run(p, Init(cfg), es).Ran?
    ensures !ChatsReachTheOthers(p, Run(p, Init(cfg), es).state)
  {
    var s: ServerState;
    es, s := SenderHearsItself(p, cfg);
    ReachedInv(p, cfg, es, s);
    ChatReachesTheOthers(p, s, 1);
    assert !ChatReachesOthers(p, s, s.bySession[1]);
  }

  // R6

  // Closing a user that is in no room would now tell nobody.
  ghost predicate IdleClosesAreQuiet(p: Patch, s: ServerState) {
    forall session :: s.GetUser(session).Found? && s.User(s.bySession[session]).domain != DomainRoom ==>
      CloseSession(p, s, session).sent == []
  }

  // A member of lobby 0, alone in the first room, leaves it.
  lemma RoomIsLeft(p: Patch, s0: ServerState, es: seq<Event>, s: ServerState, session: int, u: int)
    returns (es': seq<Event>, s': ServerState)
    requires Takes(p, s0, es, s) && Inv(s) && s.GetUser(session) == Found(u)
    requires s.users[u].domain == DomainRoom && s.users[u].lobby == 0 && s.users[u].room == 0
    requires |s.lobbies[0].rooms| > 0 && s.lobbies[0].rooms[0].members == [u]
    ensures Takes(p, s0, es', s') && Inv(s') && s'.bySession == s.bySession && es' == es + [RoomLeaveReq(session)]
    ensures s'.users == s.users[u := s.users[u].EnteredLobby(0)]
    ensures s' == s.WithRoom(0, 0, s.lobbies[0].rooms[0].Cleared()).(users := s'.users)
  {
    assert UserInv(s.users, s.free, u) && LobbyShape(s.lobbies[0]) && RoomShape(s.lobbies[0].rooms[0]);
    assert s.lobbies[0].rooms[0].Leave(u) == (s.lobbies[0].rooms[0].Cleared(), NONE);
    es', s' := Advance(p, s0, es, s, RoomLeaveReq(session));
  }

  // User 0 creates the first room of lobby 0 and leaves it: only the room index it carries is new.
  lemma RoomIsVisited(p: Patch, s0: ServerState, es: seq<Event>, s: ServerState, slots: seq<Option<int>>, cfg: Config)
    returns (es': seq<Event>, s': ServerState)
    requires Takes(p, s0, es, s) && SlotLeak.Shows(s, slots, {0}) && 0 < cfg.maxRoomUsers < 0x8000
    requires |s.lobbies[0].rooms| > 0 && s.lobbies[0].rooms[0] == NewRoom(0, cfg)
    ensures Takes(p, s0, es', s') && SlotLeak.Shows(s', slots, {0}) && (InRange(2, es) ==> InRange(2, es'))
    ensures s'.lobbies == s.lobbies && s'.users == s.users[0 := s.users[0].(room := 0)]
  {
    var room := s.lobbies[0].rooms[0];
    var s1: ServerState;
    es', s1 := RoomIsCreated(p, s0, es, s, 0, 0);
    es', s' := RoomIsLeft(p, s0, es', s1, 0, 0);
    InRangeAppend(2, es, RoomEnterReq(0, true, 0, "t"));
    InRangeAppend(2, es + [RoomEnterReq(0, true, 0, "t")], RoomLeaveReq(0));
    RoomGoesBack(s, room.(used := true, title := "t", members := [0]), room);
  }

  // Replacing the first room and putting it back changes nothing.
  lemma RoomGoesBack(s: ServerState, room: RoomState, was: RoomState)
    requires |s.lobbies| > 0 && s.lobbies[0].HasRoom(0) && s.lobbies[0].rooms[0] == was
    ensures s.WithRoom(0, 0, room).WithRoom(0, 0, was) == s
  {
    SameRoomSameState(s, 0, 0);
    assert s.lobbies[0].rooms[0 := room][0 := was] == s.lobbies[0].rooms;
    assert s.lobbies[0 := s.lobbies[0].(rooms := s.lobbies[0].rooms[0 := room])][0 := s.lobbies[0]] == s.lobbies;
  }

  // User 0 enters lobby 0, creates its first room and leaves both: nothing remains but the indices it carries.
  lemma UserZeroVisits(p: Patch, cfg: Config) returns (es: seq<Event>, s: ServerState)
    requires ValidConfig(cfg) && RoomLeak.RoomsCanBeCreated(cfg) && cfg.maxRoomUsers > 0 && cfg.maxUsers > 1
    ensures Takes(p, Init(cfg), es, s) && SlotLeak.Shows(s, SlotLeak.Empty(cfg.maxLobbyUsers), {}) && InRange(2, es)
    ensures s.lobbies[0].HasRoom(0) && s.lobbies[0].rooms[0] == NewRoom(0, cfg)
    ensures s.User(0) == NewUser(0).LoggedIn(0, "a").(lobby := 0, room := 0)
    ensures s.User(1) == NewUser(1).LoggedIn(1, "b")
  {
    var slots := SlotLeak.Empty(cfg.maxLobbyUsers)[0 := Some(0)];
    es, s := UserEntersEmptyLobby(p, cfg);
    es, s := RoomIsVisited(p, Init(cfg), es, s, slots, cfg);
    es, s := SlotLeak.LeaveGoes(p, Init(cfg), es, s, slots, {0}, 0);
    assert SlotMatches(p, slots, 0, 0);
    assert ClearSlot(p, slots, 0) == SlotLeak.Empty(cfg.maxLobbyUsers) && {0} - {0} == {};
  }

  lemma FirstRoomIsNew(cfg: Config)
    requires 0 < cfg.roomsPerLobby < 0x8000
    ensures NewLobby(0, cfg).HasRoom(0) && NewLobby(0, cfg).rooms[0] == NewRoom(0, cfg)
  {
  }

  lemma UserEntersEmptyLobby(p: Patch, cfg: Config) returns (es: seq<Event>, s: ServerState)
    requires ValidConfig(cfg) && RoomLeak.RoomsCanBeCreated(cfg) && cfg.maxUsers > 1
    ensures Takes(p, Init(cfg), es, s) && InRange(2, es)
    ensures SlotLeak.Shows(s, SlotLeak.Empty(cfg.maxLobbyUsers)[0 := Some(0)], {0})
    ensures s.lobbies[0].rooms == NewLobby(0, cfg).rooms && s.lobbies[0].rooms[0] == NewRoom(0, cfg)
    ensures s.User(0) == NewUser(0).LoggedIn(0, "a").EnteredLobby(0) && s.User(1) == NewUser(1).LoggedIn(1, "b")
  {
    es, s := SlotLeak.TwoLogins(p, cfg);
    FirstNullIsFirstFree(SlotLeak.Empty(cfg.maxLobbyUsers), 0, 0);
    es, s := SlotLeak.EnterGoes(p, Init(cfg), es, s, SlotLeak.Empty(cfg.maxLobbyUsers), {}, 0, 0);
    assert {} + {0} == {0};
    FirstRoomIsNew(cfg);
  }

  // Then user 1 enters,
  lemma UserOneEnters(p: Patch, cfg: Config) returns (es: seq<Event>, s: ServerState)
    requires ValidConfig(cfg) && RoomLeak.RoomsCanBeCreated(cfg) && cfg.maxRoomUsers > 0 && cfg.maxUsers > 1
    ensures Takes(p, Init(cfg), es, s) && Inv(s) && InRange(2, es)
    ensures s.GetUser(0) == Found(0) && s.GetUser(1) == Found(1)
    ensures s.User(0) == NewUser(0).LoggedIn(0, "a").(lobby := 0, room := 0)
    ensures s.User(1) == NewUser(1).LoggedIn(1, "b").EnteredLobby(0)
    ensures |s.lobbies| > 0 && s.lobbies[0].HasRoom(0) && s.lobbies[0].rooms[0] == NewRoom(0, cfg)
  {
    es, s := UserZeroVisits(p, cfg);
    FirstNullIsFirstFree(SlotLeak.Empty(cfg.maxLobbyUsers), 0, 0);
    es, s := SlotLeak.EnterGoes(p, Init(cfg), es, s, SlotLeak.Empty(cfg.maxLobbyUsers), {}, 1, 0);
  }

  // and creates the first room anew.
  lemma UserOneMovesIn(p: Patch, cfg: Config) returns (es: seq<Event>, s: ServerState)
    requires ValidConfig(cfg) && RoomLeak.RoomsCanBeCreated(cfg) && cfg.maxRoomUsers > 0 && cfg.maxUsers > 1
    ensures Takes(p, Init(cfg), es, s) && Inv(s) && InRange(2, es) && s.GetUser(0) == Found(0)
    ensures s.User(0) == NewUser(0).LoggedIn(0, "a").(lobby := 0, room := 0)
    ensures s.User(1).session == 1
    ensures |s.lobbies| > 0 && s.lobbies[0].HasRoom(0) && s.lobbies[0].rooms[0].members == [1]
  {
    var es1, s1 := UserOneEnters(p, cfg);
    es, s := RoomIsCreated(p, Init(cfg), es1, s1, 1, 1);
    InRangeAppend(2, es1, RoomEnterReq(1, true, 0, "t"));
  }

  /** R6, on one run: user 0, back at LOGIN, closes, and user 1 is told that it left a room they never shared. */
  lemma StrangerIsAnnounced(p: Patch, cfg: Config) returns (es: seq<Event>, s: ServerState)
    requires ValidConfig(cfg) && RoomLeak.RoomsCanBeCreated(cfg) && cfg.maxRoomUsers > 0 && cfg.maxUsers > 1
    requires !p.notifyIfMember
    ensures Reached(p, cfg, es, s) && InRange(cfg.maxUsers, es)
    ensures s.GetUser(0) == Found(0) && s.User(0).domain == DomainLogin
    ensures CloseSession(p, s, 0).sent == [Sent(1, LeaveUserNtf("a"))]
  {
    es, s := UserOneMovesIn(p, cfg);
    Closing.CloseNotifies(p, s, 0);
    assert Closing.Remaining([1], 0) == [1];
  }

  /**
   * R6, exactly: in all runs closing a user that is in no room tells nobody if and only if R6 is repaired, or there
   * is at most one user, or nobody can ever be in a room.
   */
  lemma IdleClosesAreQuietIff(p: Patch, cfg: Config)
    requires ValidConfig(cfg)
    ensures (forall es :: Run(p, Init(cfg), es).Ran? ==> IdleClosesAreQuiet(p, Run(p, Init(cfg), es).state)) <==>
            p.notifyIfMember || cfg.maxUsers <= 1 || !RoomLeak.RoomsCanBeCreated(cfg) || cfg.maxRoomUsers == 0
    ensures (forall es :: InRange(cfg.maxUsers, es) && Run(p, Init(cfg), es).Ran? ==>
               IdleClosesAreQuiet(p, Run(p, Init(cfg), es).state)) <==>
            p.notifyIfMember || cfg.maxUsers <= 1 || !RoomLeak.RoomsCanBeCreated(cfg) || cfg.maxRoomUsers == 0
  {
    if p.notifyIfMember || cfg.maxUsers <= 1 || !RoomLeak.RoomsCanBeCreated(cfg) || cfg.maxRoomUsers == 0 {
      forall es | Run(p, Init(cfg), es).Ran? ensures IdleClosesAreQuiet(p, Run(p, Init(cfg), es).state) {
        var s := Run(p, Init(cfg), es).state;
        ReachedInv(p, cfg, es, s);
        forall session | s.GetUser(session).Found? && s.User(s.bySession[session]).domain != DomainRoom
          ensures CloseSession(p, s, session).sent == []
        {
          QuietClose(p, cfg, es, s, session);
        }
      }
    } else {
      var es, s := StrangerIsAnnounced(p, cfg);
      assert !IdleClosesAreQuiet(p, Run(p, Init(cfg), es).state);
    }
  }

  lemma QuietClose(p: Patch, cfg: Config, es: seq<Event>, s: ServerState, session: int)
    requires Reached(p, cfg, es, s)
    requires s.GetUser(session).Found? && s.User(s.bySession[session]).domain != DomainRoom
    requires p.notifyIfMember || cfg.maxUsers <= 1 || !RoomLeak.RoomsCanBeCreated(cfg) || cfg.maxRoomUsers == 0
    ensures CloseSession(p, s, session).sent == []
  {
    var u := s.bySession[session];
    ReachedInv(p, cfg, es, s);
    PoolIsConserved(p, cfg, es, s);
    Closing.SpuriousLeaveNotice(p, s, session);
    if CloseSession(p, s, session).sent != [] {
      var members := s.lobbies[s.User(u).lobby].rooms[s.User(u).room].members;
      Closing.MembersOwnIndices(s, s.User(u).lobby, s.User(u).room);
      var v := members[0];
      assert v in members;
      RoomIsFoundFromUser(p, cfg, es, s, s.User(u).lobby, s.User(u).room, v);
      RoomUserMeansRooms(p, cfg, es, s, v);
    }
  }

  // Getting into a lobby

  ghost predicate SomebodyIsPlaced(s: ServerState) {
    exists u :: 0 <= u < |s.users| && s.users[u].Placed()
  }

  /**
   * Somebody can get into a lobby or a room at all if and only if there are users, a lobby, and a lobby limit above
   * zero; the sessions that the network hands out suffice.
   */
  lemma SomebodyGetsInIff(p: Patch, cfg: Config)
    requires ValidConfig(cfg)
    ensures (exists es :: Run(p, Init(cfg), es).Ran? && SomebodyIsPlaced(Run(p, Init(cfg), es).state)) <==>
            cfg.maxUsers > 0 && cfg.lobbyCount > 0 && cfg.maxLobbyUsers > 0
    ensures (exists es :: InRange(cfg.maxUsers, es) && Run(p, Init(cfg), es).Ran? &&
               SomebodyIsPlaced(Run(p, Init(cfg), es).state)) <==>
            cfg.maxUsers > 0 && cfg.lobbyCount > 0 && cfg.maxLobbyUsers > 0
  {
    if RoomLeak.LobbiesCanBeEntered(cfg) {
      var es := FirstUserGetsIn(p, cfg);
    } else {
      forall es | Run(p, Init(cfg), es).Ran? ensures !SomebodyIsPlaced(Run(p, Init(cfg), es).state) {
        NobodyGetsIn(p, cfg, es, Run(p, Init(cfg), es).state);
      }
    }
  }

  lemma FirstUserGetsIn(p: Patch, cfg: Config) returns (es: seq<Event>)
    requires ValidConfig(cfg) && RoomLeak.LobbiesCanBeEntered(cfg)
    ensures InRange(cfg.maxUsers, es) && Run(p, Init(cfg), es).Ran? && SomebodyIsPlaced(Run(p, Init(cfg), es).state)
  {
    var s: ServerState;
    es, s := RoomLeak.FirstUserEnters(p, cfg, 0);
    assert s.users[0].Placed();
  }

  lemma NobodyGetsIn(p: Patch, cfg: Config, es: seq<Event>, s: ServerState)
    requires Reached(p, cfg, es, s) && !RoomLeak.LobbiesCanBeEntered(cfg)
    ensures !SomebodyIsPlaced(s)
  {
    ReachedInv(p, cfg, es, s);
    PoolIsConserved(p, cfg, es, s);
    LobbiesStay(p, cfg, es, s);
    forall u | 0 <= u < |s.users| ensures !s.users[u].Placed() {
      if s.users[u].Placed() {
        PlacedUserIsListed(s, u);
        LimitsHold(p, cfg, es, s, s.users[u].lobby);
      }
    }
  }

  // Main::LoadConfig leaves the lobby limit at zero.
  const SHIPPED := Config(1000, 2, 0, 20, 4)

  /** With the shipped configuration nobody ever gets into a lobby, whatever the clients send. */
  lemma ShippedConfigurationAdmitsNobody(p: Patch, es: seq<Event>, s: ServerState, u: int)
    requires Reached(p, SHIPPED, es, s) && 0 <= u < |s.users|
    ensures !s.users[u].Placed()
  {
    SomebodyGetsInIff(p, SHIPPED);
    assert !SomebodyIsPlaced(Run(p, Init(SHIPPED), es).state);
  }
}
