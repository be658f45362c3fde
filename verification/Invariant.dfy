/** What every step keeps, whichever lines are repaired. */
module Invariant {
  import opened Types
  import opened State
  import opened Handlers

  // The configurations whose numbers survive the conversions to short.
  predicate ValidConfig(cfg: Config) {
    && 0 <= cfg.maxUsers <= 0x8000
    && 0 <= cfg.lobbyCount < 0x8000
    && 0 <= cfg.maxLobbyUsers < 0x8000
    && 0 <= cfg.roomsPerLobby < 0x8000
    && 0 <= cfg.maxRoomUsers < 0x8000
  }

  /** The free deque and the confirmed entries split the pool, and an entry not in use is blank. */
  ghost predicate PoolInv(users: seq<UserState>, free: seq<int>) {
    && |users| <= 0x8000
    && NoDup(free)
    && (forall j :: 0 <= j < |free| ==> 0 <= free[j] < |users|)
    && forall u :: 0 <= u < |users| ==> UserInv(users, free, u)
  }

  ghost predicate UserInv(users: seq<UserState>, free: seq<int>, u: int)
    requires 0 <= u < |users|
  {
    && users[u].index == u
    && (users[u].confirmed <==> u !in free)
    && (users[u].confirmed <==> users[u].domain != DomainNone)
    && (!users[u].confirmed ==> users[u].lobby == -1 && users[u].room == -1)
  }

  ghost predicate RoomShape(room: RoomState) {
    && |room.members| <= room.max
    && (!room.used ==> room.members == [])
    && NoDup(room.members)
  }

  ghost predicate LobbyShape(lobby: LobbyState) {
    && |lobby.slots| == lobby.max
    && |lobby.byIndex| <= lobby.max
    && |lobby.rooms| < 0x8000
    && (forall u :: u in lobby.byIndex ==> lobby.byIndex[u] == u)
    && forall r :: 0 <= r < |lobby.rooms| ==> lobby.rooms[r].index == r && RoomShape(lobby.rooms[r])
  }

  /** The index dictionary of lobby l holds exactly the users that say they are in lobby l. */
  ghost predicate MembersAgree(users: seq<UserState>, lobby: LobbyState, l: int) {
    && (forall u :: u in lobby.byIndex <==> 0 <= u < |users| && users[u].Placed() && users[u].lobby == l)
    && forall r :: 0 <= r < |lobby.rooms| ==> RoomAgrees(users, lobby.rooms[r].members, l, r)
  }

  /** The list of room r of lobby l holds exactly the users that say they are in that room. */
  ghost predicate RoomAgrees(users: seq<UserState>, members: seq<int>, l: int, r: int) {
    forall u :: u in members <==>
      0 <= u < |users| && users[u].domain == DomainRoom && users[u].lobby == l && users[u].room == r
  }

  ghost predicate LobbiesInv(users: seq<UserState>, lobbies: seq<LobbyState>) {
    && |lobbies| < 0x8000
    && (forall l :: 0 <= l < |lobbies| ==>
         lobbies[l].index == l && LobbyShape(lobbies[l]) && MembersAgree(users, lobbies[l], l))
    && forall u :: 0 <= u < |users| ==> PlaceExists(users[u], lobbies)
  }

  // A user that claims a place names an existing one.
  ghost predicate PlaceExists(user: UserState, lobbies: seq<LobbyState>) {
    && (user.Placed() ==> 0 <= user.lobby < |lobbies|)
    && (user.domain == DomainRoom ==> lobbies[user.lobby].HasRoom(user.room))
  }

  ghost predicate Inv(s: ServerState) {
    && PoolInv(s.users, s.free)
    && LobbiesInv(s.users, s.lobbies)
    && forall session :: session in s.bySession ==> 0 <= s.bySession[session] < |s.users|
  }

  lemma ShortIsExact(x: int)
    requires -0x8000 <= x < 0x8000
    ensures ToShort(x) == x
  {
  }

  /** In general, the one number of 16 bits that differs by a multiple of 65536. */
  lemma ShortIsTheResidue(x: int)
    ensures -0x8000 <= ToShort(x) < 0x8000 && (x - ToShort(x)) % 0x1_0000 == 0
  {
  }

  lemma InitKeepsInv(cfg: Config)
    requires ValidConfig(cfg)
    ensures Inv(Init(cfg))
  {
    var s := Init(cfg);
    assert forall u :: 0 <= u < |s.users| ==> s.users[u] == NewUser(u);
    forall u | 0 <= u < |s.users| ensures UserInv(s.users, s.free, u) {
      assert s.free[u] == u;
    }
    NewLobbiesKeepInv(cfg, s.users, s.lobbies);
  }

  lemma NewLobbiesKeepInv(cfg: Config, users: seq<UserState>, lobbies: seq<LobbyState>)
    requires ValidConfig(cfg) && |lobbies| < 0x8000
    requires forall l :: 0 <= l < |lobbies| ==> lobbies[l] == NewLobby(l, cfg)
    requires forall u :: 0 <= u < |users| ==> users[u] == NewUser(u)
    ensures LobbiesInv(users, lobbies)
  {
    forall l | 0 <= l < |lobbies| ensures lobbies[l].index == l && LobbyShape(lobbies[l]) && MembersAgree(users, lobbies[l], l) {
      assert lobbies[l] == NewLobby(l, cfg);
      forall r | 0 <= r < |lobbies[l].rooms| ensures RoomAgrees(users, lobbies[l].rooms[r].members, l, r) {
        assert lobbies[l].rooms[r] == NewRoom(r, cfg);
      }
    }
  }

  // s' is s with entry u replaced.
  ghost predicate OnlyUser(s: ServerState, s': ServerState, u: int) {
    && 0 <= u < |s.users| == |s'.users|
    && s'.users == s.users[u := s'.users[u]]
  }

  // s' is s with lobby l replaced by one with as many rooms.
  ghost predicate OnlyLobby(s: ServerState, s': ServerState, l: int) {
    && 0 <= l < |s.lobbies| == |s'.lobbies|
    && s'.lobbies == s.lobbies[l := s'.lobbies[l]]
    && |s'.lobbies[l].rooms| == |s.lobbies[l].rooms|
  }

  lemma PoolKept(s: ServerState, s': ServerState, u: int)
    requires PoolInv(s.users, s.free)
    requires OnlyUser(s, s', u)
    requires NoDup(s'.free) && forall v :: v != u ==> (v in s'.free <==> v in s.free)
    requires u in s'.free <==> !s'.users[u].confirmed
    requires UserInv(s'.users, s'.free, u)
    ensures PoolInv(s'.users, s'.free)
  {
    forall j | 0 <= j < |s'.free| ensures 0 <= s'.free[j] < |s.users| {
      assert s'.free[j] in s'.free;
    }
    assert forall v :: 0 <= v < |s.users| ==> UserInv(s.users, s.free, v) ==> v == u || UserInv(s'.users, s'.free, v);
  }

  // A step that touches one user and one lobby needs to be checked there only.
  lemma LobbiesKept(s: ServerState, s': ServerState, u: int, l: int)
    requires LobbiesInv(s.users, s.lobbies)
    requires OnlyUser(s, s', u) && OnlyLobby(s, s', l)
    requires s.users[u].Placed() ==> s.users[u].lobby == l
    requires s'.users[u].Placed() ==> s'.users[u].lobby == l
    requires s'.users[u].domain == DomainRoom ==> s'.lobbies[l].HasRoom(s'.users[u].room)
    requires s'.lobbies[l].index == l && LobbyShape(s'.lobbies[l]) && MembersAgree(s'.users, s'.lobbies[l], l)
    ensures LobbiesInv(s'.users, s'.lobbies)
  {
    forall m | 0 <= m < |s.lobbies| ensures MembersAgree(s'.users, s'.lobbies[m], m) {
      assert MembersAgree(s.users, s.lobbies[m], m);
    }
    forall v | 0 <= v < |s.users| ensures PlaceExists(s'.users[v], s'.lobbies) {
      assert PlaceExists(s.users[v], s.lobbies);
    }
  }

  // A step between NONE and LOGIN touches no lobby at all.
  lemma LobbiesUntouched(s: ServerState, s': ServerState, u: int)
    requires LobbiesInv(s.users, s.lobbies)
    requires OnlyUser(s, s', u) && s'.lobbies == s.lobbies
    requires !s.users[u].Placed() && !s'.users[u].Placed()
    ensures LobbiesInv(s'.users, s'.lobbies)
  {
    forall m | 0 <= m < |s.lobbies| ensures MembersAgree(s'.users, s'.lobbies[m], m) {
      assert MembersAgree(s.users, s.lobbies[m], m);
    }
    forall v | 0 <= v < |s.users| ensures PlaceExists(s'.users[v], s'.lobbies) {
      assert PlaceExists(s.users[v], s.lobbies);
    }
  }

  lemma AddUserKeepsInv(p: Patch, s: ServerState, session: int, id: string, buffer: int)
    requires Inv(s)
    ensures Inv(s.AddUser(p, session, id, buffer).0)
  {
    var (s', code) := s.AddUser(p, session, id, buffer);
    if code == NONE {
      var u := s.free[0];
      assert s.free == [u] + s'.free;
      assert UserInv(s.users, s.free, u);
      PoolKept(s, s', u);
      LobbiesUntouched(s, s', u);
    }
  }

  lemma RemoveUserKeepsInv(p: Patch, s: ServerState, session: int)
    requires Inv(s) && session in s.bySession
    requires s.users[s.bySession[session]].domain == DomainLogin
    ensures Inv(s.RemoveUser(p, session).0)
  {
    var s' := s.RemoveUser(p, session).0;
    var u := s.bySession[session];
    assert UserInv(s.users, s.free, u);
    PoolKept(s, s', u);
    LobbiesUntouched(s, s', u);
  }

  lemma LobbyEnterKeepsInv(p: Patch, s: ServerState, session: int, lobbyId: int)
    requires Inv(s)
    requires LobbyEnter(p, s, session, lobbyId).Done?
    ensures Inv(LobbyEnter(p, s, session, lobbyId).state)
  {
    var o := LobbyEnter(p, s, session, lobbyId);
    if o.code == NONE {
      var u := s.bySession[session];
      assert UserInv(s.users, s.free, u);
      PoolKept(s, o.state, u);
      LobbiesKept(s, o.state, u, lobbyId);
    }
  }

  // Leaving a lobby from its list, with or without being a member of it.
  lemma LeaveLobbyKeepsInv(p: Patch, s: ServerState, l: int, u: int)
    requires Inv(s) && 0 <= l < |s.lobbies| && 0 <= u < |s.users|
    requires s.users[u].domain == DomainLogin || (s.users[u].domain == DomainLobby && s.users[u].lobby == l)
    ensures Inv(s.LeaveLobby(p, l, u).0)
    ensures s.LeaveLobby(p, l, u).0.users[u].domain == DomainLogin
    ensures s.LeaveLobby(p, l, u).1 == NONE <==> u in s.lobbies[l].byIndex
  {
    var s' := s.LeaveLobby(p, l, u).0;
    assert UserInv(s.users, s.free, u);
    if u in s.lobbies[l].byIndex {
      PoolKept(s, s', u);
    } else {
      assert s'.users == s.users[u := s.users[u]];
    }
    LobbiesKept(s, s', u, l);
  }

  // Erasing the one occurrence of u keeps everyone else, in order.
  lemma EraseMember(members: seq<int>, u: int)
    requires NoDup(members) && u in members
    ensures NoDup(Erase(members, IndexOf(members, u)))
    ensures forall v :: v in Erase(members, IndexOf(members, u)) <==> v in members && v != u
  {
    var i := IndexOf(members, u);
    var rest := Erase(members, i);
    assert forall j :: 0 <= j < |rest| ==> rest[j] == members[if j < i then j else j + 1];
    forall v | v in members && v != u ensures v in rest {
      var j :| 0 <= j < |members| && members[j] == v;
      assert rest[if j < i then j else j - 1] == v;
    }
  }

  lemma LeaveRoomShape(room: RoomState, u: int)
    requires RoomShape(room)
    ensures var (room', code) := room.Leave(u);
            && RoomShape(room') && room'.index == room.index && room'.max == room.max
            && (code == NONE <==> u in room.members)
            && (code != NONE ==> room' == room)
            && forall v :: v in room'.members <==> v in room.members && v != u
  {
    if u in room.members {
      EraseMember(room.members, u);
    }
  }

  lemma EnterRoomShape(room: RoomState, u: int)
    requires RoomShape(room) && u !in room.members
    ensures var (room', code) := room.Enter(u);
            && RoomShape(room') && room'.index == room.index && room'.max == room.max
            && (code != NONE ==> room' == room)
            && (code == NONE ==> room'.used && room'.members == room.members + [u])
  {
  }

  // Replacing a room by one with the same members changes nothing the invariant looks at.
  lemma SameMembersKeepsInv(s: ServerState, l: int, r: int, room: RoomState)
    requires Inv(s)
    requires 0 <= l < |s.lobbies| && s.lobbies[l].HasRoom(r)
    requires room.index == r && RoomShape(room) && room.members == s.lobbies[l].rooms[r].members
    ensures Inv(s.WithRoom(l, r, room))
  {
    var s' := s.WithRoom(l, r, room);
    forall m | 0 <= m < |s.lobbies| ensures LobbyShape(s'.lobbies[m]) && MembersAgree(s'.users, s'.lobbies[m], m) {
      assert LobbyShape(s.lobbies[m]) && MembersAgree(s.users, s.lobbies[m], m);
    }
    forall v | 0 <= v < |s.users| ensures PlaceExists(s'.users[v], s'.lobbies) {
      assert PlaceExists(s.users[v], s.lobbies);
    }
  }

  /** Taking or leaving a seat in room r of its lobby is a matter between one user and that room. */
  lemma SeatKeepsInv(s: ServerState, l: int, r: int, u: int, room: RoomState, user: UserState)
    requires Inv(s) && 0 <= l < |s.lobbies| && s.lobbies[l].HasRoom(r) && 0 <= u < |s.users|
    requires s.users[u].Placed() && s.users[u].lobby == l && (s.users[u].domain == DomainRoom ==> s.users[u].room == r)
    requires room.index == r && RoomShape(room)
    requires forall v :: v != u ==> (v in room.members <==> v in s.lobbies[l].rooms[r].members)
    requires user.index == u && user.confirmed && user.Placed() && user.lobby == l
    requires user.domain == DomainRoom ==> user.room == r
    requires u in room.members <==> user.domain == DomainRoom
    ensures Inv(s.WithRoom(l, r, room).WithUser(u, user))
  {
    var s' := s.WithRoom(l, r, room).WithUser(u, user);
    assert UserInv(s.users, s.free, u) && LobbyShape(s.lobbies[l]) && MembersAgree(s.users, s.lobbies[l], l);
    PoolKept(s, s', u);
    forall q | 0 <= q < |s'.lobbies[l].rooms| ensures RoomAgrees(s'.users, s'.lobbies[l].rooms[q].members, l, q) {
      assert RoomAgrees(s.users, s.lobbies[l].rooms[q].members, l, q);
    }
    LobbiesKept(s, s', u, l);
  }

  lemma RoomEnterKeepsInv(s: ServerState, session: int, isCreate: bool, roomIndex: int, title: string)
    requires Inv(s)
    requires RoomEnter(s, session, isCreate, roomIndex, title).Done?
    ensures Inv(RoomEnter(s, session, isCreate, roomIndex, title).state)
  {
    var o := RoomEnter(s, session, isCreate, roomIndex, title);
    if o.state != s {
      var u := s.bySession[session];
      var user := s.User(u);
      var l := user.lobby;
      assert UserInv(s.users, s.free, u);
      var choice := ChooseRoom(s.lobbies[l], isCreate, roomIndex, title);
      var r, room := choice.room, choice.state;
      assert room.members == s.lobbies[l].rooms[r].members && room.index == r && RoomShape(room);
      assert MembersAgree(s.users, s.lobbies[l], l);
      assert u !in room.members;
      EnterRoomShape(room, u);
      if o.code != NONE {
        SameMembersKeepsInv(s, l, r, room);
      } else {
        SeatKeepsInv(s, l, r, u, room.Enter(u).0, user.EnteredRoom(l, r));
      }
    }
  }

  lemma RoomLeaveKeepsInv(s: ServerState, session: int)
    requires Inv(s)
    requires RoomLeave(s, session).Done?
    ensures Inv(RoomLeave(s, session).state)
  {
    var o := RoomLeave(s, session);
    if o.code == NONE {
      var u := s.bySession[session];
      var l, r := s.User(u).lobby, s.User(u).room;
      assert UserInv(s.users, s.free, u);
      LeaveRoomShape(s.lobbies[l].rooms[r], u);
      SeatKeepsInv(s, l, r, u, s.lobbies[l].rooms[r].Leave(u).0, s.users[u].EnteredLobby(l));
    }
  }

  // What a stale room index leads to: not a member there, so the room stays as it is.
  lemma StaleRoomUntouched(s: ServerState, u: int)
    requires Inv(s) && 0 <= u < |s.users| && s.users[u].domain != DomainRoom
    requires s.HasLobby(s.users[u].lobby) && s.lobbies[s.users[u].lobby].HasRoom(s.users[u].room)
    ensures var (l, r) := (s.users[u].lobby, s.users[u].room);
            && s.lobbies[l].rooms[r].Leave(u).1 != NONE
            && s.WithRoom(l, r, s.lobbies[l].rooms[r].Leave(u).0) == s
  {
    var l, r := s.users[u].lobby, s.users[u].room;
    assert MembersAgree(s.users, s.lobbies[l], l) && RoomAgrees(s.users, s.lobbies[l].rooms[r].members, l, r);
    LeaveRoomShape(s.lobbies[l].rooms[r], u);
    assert s.lobbies[l].rooms[r := s.lobbies[l].rooms[r]] == s.lobbies[l].rooms;
    assert s.lobbies[l := s.lobbies[l]] == s.lobbies;
  }

  lemma LeaveAllInRoom(p: Patch, s: ServerState, session: int)
    requires Inv(s) && s.GetUser(session).Found? && s.User(s.bySession[session]).domain == DomainRoom
    ensures var u := s.bySession[session];
            && s.HasLobby(s.User(u).lobby)
            && RoomLeave(s, session).Done? && RoomLeave(s, session).code == NONE
            && LeaveAll(p, s, u).0 == RoomLeave(s, session).state.LeaveLobby(p, s.User(u).lobby, u).0
  {
    var u := s.bySession[session];
    var l, r := s.User(u).lobby, s.User(u).room;
    assert UserInv(s.users, s.free, u) && PlaceExists(s.users[u], s.lobbies);
    assert MembersAgree(s.users, s.lobbies[l], l) && RoomAgrees(s.users, s.lobbies[l].rooms[r].members, l, r);
    LeaveRoomShape(s.lobbies[l].rooms[r], u);
    assert LeaveAll(p, s, u).0.users == RoomLeave(s, session).state.LeaveLobby(p, l, u).0.users;
  }

  /**
   * What the teardown on close does to the server: for a user in a room, a room leave and then a lobby leave;
   * otherwise a lobby leave at whatever lobby index the user still carries, and never a change to a room.
   */
  lemma LeaveAllInSteps(p: Patch, s: ServerState, session: int)
    requires Inv(s) && s.GetUser(session).Found?
    ensures var u := s.bySession[session];
            var l := s.User(u).lobby;
            if s.User(u).domain == DomainRoom then
              && s.HasLobby(l) && RoomLeave(s, session).Done? && RoomLeave(s, session).code == NONE
              && LeaveAll(p, s, u).0 == RoomLeave(s, session).state.LeaveLobby(p, l, u).0
            else
              LeaveAll(p, s, u).0 == if s.HasLobby(l) then s.LeaveLobby(p, l, u).0 else s
  {
    var u := s.bySession[session];
    var user := s.User(u);
    if user.domain == DomainRoom {
      LeaveAllInRoom(p, s, session);
    } else {
      assert UserInv(s.users, s.free, u);
      if s.HasLobby(user.lobby) && s.lobbies[user.lobby].HasRoom(user.room) {
        StaleRoomUntouched(s, u);
      }
    }
  }

  lemma LeaveAllKeepsInv(p: Patch, s: ServerState, session: int)
    requires Inv(s) && s.GetUser(session).Found?
    ensures var u := s.bySession[session];
            var s' := LeaveAll(p, s, u).0;
            && Inv(s') && s'.bySession == s.bySession && s'.users[u].domain == DomainLogin
            && s'.free == s.free && |s'.users| == |s.users|
  {
    var u := s.bySession[session];
    assert UserInv(s.users, s.free, u) && PlaceExists(s.users[u], s.lobbies);
    LeaveAllInSteps(p, s, session);
    if s.User(u).domain == DomainRoom {
      RoomLeaveKeepsInv(s, session);
      LeaveLobbyKeepsInv(p, RoomLeave(s, session).state, s.User(u).lobby, u);
    } else if s.HasLobby(s.User(u).lobby) {
      LeaveLobbyKeepsInv(p, s, s.User(u).lobby, u);
    }
  }

  lemma StepKeepsInv(p: Patch, s: ServerState, e: Event)
    requires Inv(s) && Step(p, s, e).Done?
    ensures Inv(Step(p, s, e).state)
  {
    match e {
      case Connect(_) =>
      case Close(session) =>
        if s.GetUser(session).Found? {
          LeaveAllKeepsInv(p, s, session);
          RemoveUserKeepsInv(p, LeaveAll(p, s, s.bySession[session]).0, session);
        }
      case LoginReq(session, id, buffer) => AddUserKeepsInv(p, s, session, id, buffer);
      case LobbyListReq(_) =>
      case LobbyEnterReq(session, lobbyId) => LobbyEnterKeepsInv(p, s, session, lobbyId);
      case LobbyLeaveReq(session) =>
        if s.GetUser(session).Found? && LobbyLeave(p, s, session).state != s {
          var u := s.bySession[session];
          assert UserInv(s.users, s.free, u);
          LeaveLobbyKeepsInv(p, s, s.User(u).lobby, u);
        }
      case RoomEnterReq(session, isCreate, roomIndex, title) =>
        RoomEnterKeepsInv(s, session, isCreate, roomIndex, title);
      case RoomLeaveReq(session) => RoomLeaveKeepsInv(s, session);
      case RoomChatReq(_, _) =>
      case EchoReq(_, _) =>
      case Unregistered(_) =>
    }
  }

  lemma {:induction false} RunKeepsInv(p: Patch, s: ServerState, es: seq<Event>)
    requires Inv(s) && Run(p, s, es).Ran?
    ensures Inv(Run(p, s, es).state)
    decreases |es|
  {
    if es != [] {
      StepKeepsInv(p, s, es[0]);
      RunKeepsInv(p, Step(p, s, es[0]).state, es[1..]);
    }
  }
}
