/** Rooms that stay in use with nobody in them: the configurations in which there are any. */
module RoomLeak {
  import opened Types
  import opened State
  import opened Handlers
  import opened Invariant
  import Rooms
  import Runs
  import opened Reachable

  // A configuration in which somebody can get into a lobby.
  predicate LobbiesCanBeEntered(cfg: Config) {
    cfg.maxUsers > 0 && cfg.lobbyCount > 0 && cfg.maxLobbyUsers > 0
  }

  // A configuration in which somebody can get as far as creating a room.
  predicate RoomsCanBeCreated(cfg: Config) {
    LobbiesCanBeEntered(cfg) && cfg.roomsPerLobby > 0
  }

  // The first user of a fresh server can always get into a lobby that admits anyone.
  lemma FirstUserEnters(p: Patch, cfg: Config, session: int) returns (es: seq<Event>, s: ServerState)
    requires ValidConfig(cfg) && LobbiesCanBeEntered(cfg)
    ensures es == [LoginReq(session, "a", 0), LobbyEnterReq(session, 0)]
    ensures Runs.Takes(p, Init(cfg), es, s) && Inv(s) && s.GetUser(session) == Found(0)
    ensures s.users[0].session == session && s.users[0].domain == DomainLobby && s.users[0].lobby == 0
    ensures s.users[0].id == "a"
    ensures |s.lobbies| > 0 && s.lobbies[0].rooms == NewLobby(0, cfg).rooms
  {
    var s0 := Init(cfg);
    InitKeepsInv(cfg);
    Runs.NoEvents(p, s0);
    es, s := Runs.Advance(p, s0, [], s0, LoginReq(session, "a", 0));
    Runs.FirstLogin(p, cfg, session);
    var s1 := s;
    es, s := Runs.Advance(p, s0, es, s, LobbyEnterReq(session, 0));
    FirstEntry(p, cfg, s1, session);
  }

  lemma FirstEntry(p: Patch, cfg: Config, s: ServerState, session: int)
    requires ValidConfig(cfg) && LobbiesCanBeEntered(cfg)
    requires s.GetUser(session) == Found(0) && s.lobbies == Init(cfg).lobbies
    requires |s.users| > 0 && s.users[0] == NewUser(0).LoggedIn(session, "a")
    ensures var o := LobbyEnter(p, s, session, 0);
            && o.Done? && o.state.users == s.users[0 := s.users[0].EnteredLobby(0)]
            && o.state.bySession == s.bySession
            && |o.state.lobbies| > 0 && o.state.lobbies[0].rooms == NewLobby(0, cfg).rooms
            && o.state.lobbies[0].byIndex == map[0 := 0]
  {
    assert s.lobbies[0] == NewLobby(0, cfg);
  }

  // A member of a lobby that creates a room for nobody leaves the room in use and empty.
  lemma CreatingZeroSizedRoom(p: Patch, s: ServerState, session: int, u: int)
    requires Inv(s) && s.GetUser(session) == Found(u) && s.users[u].domain == DomainLobby
    requires |s.lobbies[s.users[u].lobby].rooms| > 0
    requires var room := s.lobbies[s.users[u].lobby].rooms[0]; !room.used && room.max == 0
    ensures Step(p, s, RoomEnterReq(session, true, 0, "t")).Done?
    ensures !NoRoomLeaks(Step(p, s, RoomEnterReq(session, true, 0, "t")).state)
  {
    var l := s.users[u].lobby;
    var s' := RoomEnter(s, session, true, 0, "t").state;
    assert PlaceExists(s.users[u], s.lobbies) && LobbyShape(s.lobbies[l]) && RoomShape(s.lobbies[l].rooms[0]);
    assert s.lobbies[l].AllocRoom(0) == 0;
    assert !NeverUsedEmpty(s'.lobbies[l].rooms[0]);
  }

  lemma ZeroSizedRoomLeaks(p: Patch, cfg: Config) returns (es: seq<Event>)
    requires ValidConfig(cfg) && RoomsCanBeCreated(cfg) && cfg.maxRoomUsers == 0
    ensures Runs.InRange(cfg.maxUsers, es)
    ensures Run(p, Init(cfg), es).Ran? && !NoRoomLeaks(Run(p, Init(cfg), es).state)
  {
    var es0, s := FirstUserEnters(p, cfg, 0);
    assert s.lobbies[0].rooms[0] == NewRoom(0, cfg);
    CreatingZeroSizedRoom(p, s, 0, 0);
    var es1, s1 := Runs.Advance(p, Init(cfg), es0, s, RoomEnterReq(0, true, 0, "t"));
    es := es1;
  }

  /**
   * Every room in use has a member, in all states of all runs, if and only if rooms hold at least one user or none
   * can be created; the sessions the network hands out are enough to show it where not.
   */
  lemma UsedRoomsHaveMembers(p: Patch, cfg: Config)
    requires ValidConfig(cfg)
    ensures (forall es :: Run(p, Init(cfg), es).Ran? ==> NoRoomLeaks(Run(p, Init(cfg), es).state))
            <==> cfg.maxRoomUsers > 0 || !RoomsCanBeCreated(cfg)
    ensures (forall es :: Runs.InRange(cfg.maxUsers, es) && Run(p, Init(cfg), es).Ran? ==>
               NoRoomLeaks(Run(p, Init(cfg), es).state))
            <==> cfg.maxRoomUsers > 0 || !RoomsCanBeCreated(cfg)
  {
    InitKeepsInv(cfg);
    if cfg.maxRoomUsers > 0 {
      forall es | Run(p, Init(cfg), es).Ran? ensures NoRoomLeaks(Run(p, Init(cfg), es).state) {
        PositiveRoomsDoNotLeak(p, cfg, es);
      }
    } else if RoomsCanBeCreated(cfg) {
      var es := ZeroSizedRoomLeaks(p, cfg);
    } else {
      forall es | Run(p, Init(cfg), es).Ran? ensures NoRoomLeaks(Run(p, Init(cfg), es).state) {
        NoRoomEverOpens(p, cfg, es);
      }
    }
  }

  lemma PositiveRoomsDoNotLeak(p: Patch, cfg: Config, es: seq<Event>)
    requires ValidConfig(cfg) && cfg.maxRoomUsers > 0 && Run(p, Init(cfg), es).Ran?
    ensures NoRoomLeaks(Run(p, Init(cfg), es).state)
  {
    var s := Init(cfg);
    InitKeepsInv(cfg);
    forall l, r | 0 <= l < |s.lobbies| && 0 <= r < |s.lobbies[l].rooms|
      ensures NeverUsedEmpty(s.lobbies[l].rooms[r]) && HoldsUsers(s.lobbies[l].rooms[r])
    {
      assert s.lobbies[l] == NewLobby(l, cfg) && s.lobbies[l].rooms[r] == NewRoom(r, cfg);
    }
    RunLeaksNoRoom(p, s, es);
  }

  // No room is in use, and whoever could open one has nowhere to stand.
  ghost predicate Barren(s: ServerState) {
    forall l, r :: 0 <= l < |s.lobbies| && 0 <= r < |s.lobbies[l].rooms| ==>
      BarrenRoom(s.lobbies[l].rooms[r], s.lobbies[l].max, |s.users|)
  }

  ghost predicate BarrenRoom(room: RoomState, lobbyMax: int, users: int) {
    !room.used && (users == 0 || lobbyMax == 0)
  }

  lemma BarrenOpensNoRoom(s: ServerState, session: int, isCreate: bool, roomIndex: int, title: string)
    requires Inv(s) && Barren(s)
    ensures RoomEnter(s, session, isCreate, roomIndex, title).Done?
    ensures RoomEnter(s, session, isCreate, roomIndex, title).state == s
  {
    if s.GetUser(session).Found? && s.User(s.bySession[session]).domain == DomainLobby {
      var u := s.bySession[session];
      var l := s.User(u).lobby;
      assert UserInv(s.users, s.free, u) && PlaceExists(s.users[u], s.lobbies);
      assert LobbyShape(s.lobbies[l]) && MembersAgree(s.users, s.lobbies[l], l);
      assert u in s.lobbies[l].byIndex;
      assert s.lobbies[l].byIndex != map[];
      assert |s.lobbies[l].rooms| > 0 ==> BarrenRoom(s.lobbies[l].rooms[0], s.lobbies[l].max, |s.users|);
    }
  }

  lemma {:induction false} BarrenStays(p: Patch, s: ServerState, es: seq<Event>)
    requires Inv(s) && Barren(s) && Run(p, s, es).Ran?
    ensures Barren(Run(p, s, es).state)
    decreases |es|
  {
    if es != [] {
      var s' := Step(p, s, es[0]).state;
      var l', r', m := Rooms.StepMovesOneRoom(p, s, es[0]);
      if es[0].RoomEnterReq? {
        BarrenOpensNoRoom(s, es[0].session, es[0].isCreate, es[0].roomIndex, es[0].title);
      }
      forall l, r | 0 <= l < |s'.lobbies| && 0 <= r < |s'.lobbies[l].rooms|
        ensures BarrenRoom(s'.lobbies[l].rooms[r], s'.lobbies[l].max, |s'.users|)
      {
        assert Rooms.LobbyMove(s.lobbies[l], s'.lobbies[l], r', if l == l' then m else Rooms.Stay);
        assert BarrenRoom(s.lobbies[l].rooms[r], s.lobbies[l].max, |s.users|);
      }
      StepKeepsInv(p, s, es[0]);
      BarrenStays(p, s', es[1..]);
    }
  }

  lemma NoRoomEverOpens(p: Patch, cfg: Config, es: seq<Event>)
    requires ValidConfig(cfg) && !RoomsCanBeCreated(cfg) && Run(p, Init(cfg), es).Ran?
    ensures NoRoomLeaks(Run(p, Init(cfg), es).state)
  {
    var s0, s := Init(cfg), Run(p, Init(cfg), es).state;
    InitKeepsInv(cfg);
    forall l, r | 0 <= l < |s0.lobbies| && 0 <= r < |s0.lobbies[l].rooms|
      ensures BarrenRoom(s0.lobbies[l].rooms[r], s0.lobbies[l].max, |s0.users|)
    {
      assert s0.lobbies[l] == NewLobby(l, cfg) && s0.lobbies[l].rooms[r] == NewRoom(r, cfg);
    }
    BarrenStays(p, s0, es);
    forall l, r | 0 <= l < |s.lobbies| && 0 <= r < |s.lobbies[l].rooms|
      ensures NeverUsedEmpty(s.lobbies[l].rooms[r])
    {
      assert BarrenRoom(s.lobbies[l].rooms[r], s.lobbies[l].max, |s.users|);
    }
  }
}
