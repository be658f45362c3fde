/** PacketProcess and its handlers over the live objects, each proved to take the step of the state machine. */
module PacketProcessImpl {
  import opened Types
  import opened State
  import opened UserImpl
  import opened RoomImpl
  import opened LobbyImpl
  import opened UserManagerImpl
  import H = Handlers

  // One lobby has changed since the views of all were `before`.
  lemma OneLobbyChanged(lobbies: seq<Lobby>, before: seq<LobbyState>, l: int)
    requires 0 <= l < |lobbies| == |before|
    requires forall k :: 0 <= k < |lobbies| && k != l ==> lobbies[k].View() == before[k]
    ensures LobbyViews(lobbies) == before[l := lobbies[l].View()]
  {
    forall k | 0 <= k < |lobbies| ensures LobbyViews(lobbies)[k] == before[l := lobbies[l].View()][k] {
      assert k != l ==> lobbies[k].View() == before[k];
    }
  }

  lemma OneRoomChanged(rooms: seq<Room>, before: seq<RoomState>, r: int)
    requires 0 <= r < |rooms| == |before|
    requires forall k :: 0 <= k < |rooms| && k != r ==> rooms[k].View() == before[k]
    ensures RoomViews(rooms) == before[r := rooms[r].View()]
  {
  }

  lemma MemberLeaves(p: Patch, s: ServerState, l: int, u: int)
    requires 0 <= l < |s.lobbies| && u in s.lobbies[l].byIndex && 0 <= s.lobbies[l].byIndex[u] < |s.users|
    ensures var v := s.lobbies[l].byIndex[u];
            var (lobby, code) := s.lobbies[l].Leave(p, u, s.users[v].id);
            s.LeaveLobby(p, l, u) == (s.(users := s.users[v := s.users[v].LeftLobby()], lobbies := s.lobbies[l := lobby]), code)
  {
  }

  lemma NothingMoved(s: ServerState, u: int, l: int)
    requires 0 <= u < |s.users| && 0 <= l < |s.lobbies|
    ensures s.(users := s.users[u := s.users[u]], lobbies := s.lobbies[l := s.lobbies[l]]) == s
  {
  }

  lemma StrangerLeaves(p: Patch, s: ServerState, l: int, u: int)
    requires 0 <= l < |s.lobbies| && u !in s.lobbies[l].byIndex
    ensures var (lobby, code) := s.lobbies[l].Leave(p, u, "");
            s.LeaveLobby(p, l, u) == (s.(lobbies := s.lobbies[l := lobby]), code)
  {
  }

  // Lobbies without a single pointer are valid whatever the pool.
  lemma EmptyLobbiesFitAnyPool(lobbies: seq<Lobby>, pool: seq<User>, p: Patch, net: TcpNet)
    requires LobbiesValid(lobbies, [], p, net)
    ensures LobbiesValid(lobbies, pool, p, net)
  {
    forall l | 0 <= l < |lobbies| ensures LobbyValid(lobbies[l], l, pool, p, net) {
      assert LobbyValid(lobbies[l], l, [], p, net);
    }
  }

  class PacketProcess {
    const patch: Patch
    const net: TcpNet
    const um: UserManager
    const lm: LobbyManager

    // Everything the server's state lives in.
    ghost function Objects(): set<object> {
      var users: set<object> := set u: User | u in um.pool;
      var lobbies: set<object> := set l: Lobby | l in lm.lobbies;
      var rooms: set<object> := RoomsIn(lm.lobbies);
      {um} + users + lobbies + rooms
    }

    ghost function View(): ServerState
      reads Objects()
    {
      um.View().(lobbies := LobbyViews(lm.lobbies))
    }

    ghost predicate Valid()
      reads Objects()
    {
      && um.Valid() && um.patch == patch && lm.patch == patch && lm.net == net
      && LobbiesValid(lm.lobbies, um.pool, patch, net)
    }

    // The reply, the new state and the packets sent since the log was `before` are those of outcome o.
    ghost predicate Follows(o: H.Outcome, r: Reply, before: seq<Sent>)
      reads Objects(), net
    {
      match o
      case Undefined => r == Crashed
      case Done(s, code, sent) => r == Returned(code) && View() == s && net.log == before + sent
    }

    constructor (p: Patch, cfg: Config)
      ensures patch == p && View() == Init(cfg) && net.log == []
      ensures cfg.maxUsers <= 0x8000 && cfg.lobbyCount < 0x8000 ==> Valid()
      ensures fresh(net) && fresh(um) && forall room :: room in RoomsIn(lm.lobbies) ==> fresh(room)
      ensures (forall u :: u in um.pool ==> fresh(u)) && forall l :: l in lm.lobbies ==> fresh(l)
    {
      var network := new TcpNet();
      var users := new UserManager(p, cfg);
      var lobbies := new LobbyManager(p, cfg, network);
      patch, net, um, lm := p, network, users, lobbies;
      new;
      if cfg.lobbyCount < 0x8000 {
        EmptyLobbiesFitAnyPool(lm.lobbies, um.pool, patch, net);
      }
    }

    method Login(session: int, id: string, buffer: int) returns (r: Reply)
      requires Valid()
      modifies Objects(), net
      ensures Valid() && Follows(H.Login(patch, old(View()), session, id, buffer), r, old(net.log))
    {
      var code := AddUserObject(session, id, buffer);
      Send(session, LoginRes(code));
      return Returned(code);
    }

    method AddUserObject(session: int, id: string, buffer: int) returns (code: Code)
      requires Valid()
      modifies um, um.pool
      ensures Valid() && (View(), code) == old(View()).AddUser(patch, session, id, buffer)
    {
      ghost var before := View();
      code := um.AddUser(session, id, buffer);
      assert LobbyViews(lm.lobbies) == before.lobbies;
      assert (um.View(), code) == before.(lobbies := []).AddUser(patch, session, id, buffer);
    }

    method Send(session: int, packet: Packet)
      requires Valid()
      modifies net
      ensures Valid() && View() == old(View()) && net.log == old(net.log) + [Sent(session, packet)]
    {
      net.SendData(session, packet);
    }

    method GetUser(session: int) returns (code: Code, user: User?)
      requires Valid()
      ensures code == NONE <==> user != null
      ensures user == null ==> View().GetUser(session) == Missing(code)
      ensures user != null ==>
                && user in um.pool && 0 <= user.index < |um.pool|
                && View().GetUser(session) == Found(user.index) && View().User(user.index) == user.View()
    {
      code, user := um.GetUser(session);
    }

    // The state after user u and lobby l have changed and nothing else has.
    lemma Moved(before: ServerState, u: User, l: int)
      requires Valid() && u in um.pool && 0 <= l < |lm.lobbies|
      requires |before.users| == |um.pool| && |before.lobbies| == |lm.lobbies|
      requires um.free == before.free
      requires Targets(um.bySession) == before.bySession && Targets(um.byId) == before.byId
      requires forall i :: 0 <= i < |um.pool| && um.pool[i] != u ==> um.pool[i].View() == before.users[i]
      requires forall k :: 0 <= k < |lm.lobbies| && k != l ==> lm.lobbies[k].View() == before.lobbies[k]
      ensures 0 <= u.index < |before.users|
      ensures View() == before.(users := before.users[u.index := u.View()],
                                lobbies := before.lobbies[l := lm.lobbies[l].View()])
    {
      PositionOf(um.pool, u);
      OneUserChanged(um.pool, before.users, u);
      OneLobbyChanged(lm.lobbies, before.lobbies, l);
    }

    // The state after user u, found under userIndex, has left lobby l.
    lemma MemberLeft(before: ServerState, u: User, l: int, userIndex: int, code: Code)
      requires Valid() && u in um.pool && 0 <= l < |lm.lobbies|
      requires |before.users| == |um.pool| && |before.lobbies| == |lm.lobbies|
      requires um.free == before.free
      requires Targets(um.bySession) == before.bySession && Targets(um.byId) == before.byId
      requires forall i :: 0 <= i < |um.pool| && um.pool[i] != u ==> um.pool[i].View() == before.users[i]
      requires forall k :: 0 <= k < |lm.lobbies| && k != l ==> lm.lobbies[k].View() == before.lobbies[k]
      requires userIndex in before.lobbies[l].byIndex && before.lobbies[l].byIndex[userIndex] == u.index
      requires 0 <= u.index < |before.users| && u.View() == before.users[u.index].LeftLobby()
      requires (lm.lobbies[l].View(), code) == before.lobbies[l].Leave(patch, userIndex, before.users[u.index].id)
      ensures (View(), code) == before.LeaveLobby(patch, l, userIndex)
    {
      Moved(before, u, l);
      MemberLeaves(patch, before, l, userIndex);
    }

    // The state after user u has changed and nothing else has.
    lemma UserMoved(before: ServerState, u: User)
      requires Valid() && u in um.pool
      requires |before.users| == |um.pool| && before.lobbies == View().lobbies
      requires um.free == before.free
      requires Targets(um.bySession) == before.bySession && Targets(um.byId) == before.byId
      requires forall i :: 0 <= i < |um.pool| && um.pool[i] != u ==> um.pool[i].View() == before.users[i]
      ensures View() == before.WithUser(u.index, u.View())
    {
      PositionOf(um.pool, u);
      OneUserChanged(um.pool, before.users, u);
    }

    // The state after room r of lobby l has changed and nothing else has.
    lemma RoomMoved(before: ServerState, l: int, r: int)
      requires Valid() && 0 <= l < |lm.lobbies| && 0 <= r < |lm.lobbies[l].rooms|
      requires before.(lobbies := []) == um.View() && |before.lobbies| == |lm.lobbies|
      requires forall k :: 0 <= k < |lm.lobbies| && k != l ==> lm.lobbies[k].View() == before.lobbies[k]
      requires |before.lobbies[l].rooms| == |lm.lobbies[l].rooms|
      requires before.lobbies[l] == lm.lobbies[l].View().(rooms := before.lobbies[l].rooms)
      requires forall q :: 0 <= q < |lm.lobbies[l].rooms| && q != r ==>
                 lm.lobbies[l].rooms[q].View() == before.lobbies[l].rooms[q]
      ensures View() == before.WithRoom(l, r, lm.lobbies[l].rooms[r].View())
    {
      OneRoomChanged(lm.lobbies[l].rooms, before.lobbies[l].rooms, r);
      OneLobbyChanged(lm.lobbies, before.lobbies, l);
    }

    // Sending to a room's list is sending to the members of the state's room.
    lemma RoomHears(l: int, k: int, pass: int, packet: Packet)
      requires Valid() && 0 <= l < |lm.lobbies| && 0 <= k < |lm.lobbies[l].rooms|
      ensures Broadcast(lm.lobbies[l].rooms[k].users, pass, packet) ==
              SendToAll(View().users, View().lobbies[l].rooms[k].members, pass, packet)
    {
      assert LobbyValid(lm.lobbies[l], l, um.pool, patch, net);
      BroadcastIsSendToAll(um.pool, lm.lobbies[l].rooms[k].users, pass, packet);
    }

    // An answer without effect.
    method Answer(ghost o: H.Outcome, session: int, packet: Packet, code: Code) returns (r: Reply)
      requires Valid() && o == H.Done(View(), code, [Sent(session, packet)])
      modifies net
      ensures Valid() && Follows(o, r, old(net.log))
    {
      Send(session, packet);
      return Returned(code);
    }

    method AdmitToLobby(session: int, user: User, l: int) returns (r: Reply)
      requires Valid() && user in um.pool && 0 <= l < |lm.lobbies|
      modifies user, lm.lobbies[l], net
      ensures Valid() && Follows(H.AdmitToLobby(patch, old(View()), session, user.index, l), r, old(net.log))
    {
      PositionOf(um.pool, user);
      ghost var o := H.AdmitToLobby(patch, View(), session, user.index, l);
      r := EnterLobbyObject(user, l);
      if r == Crashed {
        return;
      }
      if r.code != NONE {
        r := Answer(o, session, LobbyEnterRes(r.code, None), r.code);
        return;
      }
      Send(session, LobbyEnterRes(NONE, Some((lm.lobbies[l].max, ToShort(|lm.lobbies[l].rooms|)))));
    }

    // The state change of entering a lobby.
    method EnterLobbyObject(user: User, l: int) returns (r: Reply)
      requires Valid() && user in um.pool && 0 <= l < |lm.lobbies|
      modifies user, lm.lobbies[l]
      ensures Valid()
      ensures var s := old(View());
              match s.lobbies[l].Enter(patch, user.index, s.User(user.index).id)
              case NoSlot => r == Crashed
              case Entered(lobby, code) =>
                && r == Returned(code)
                && View() == if code != NONE then s
                             else s.WithLobby(l, lobby).WithUser(user.index, s.User(user.index).EnteredLobby(lobby.index))
    {
      PositionOf(um.pool, user);
      ghost var before := View();
      r := lm.lobbies[l].EnterUser(user, um.pool);
      if r == Crashed {
        return;
      }
      Moved(before, user, l);
      if r.code != NONE {
        assert user.View() == before.users[user.index] && lm.lobbies[l].View() == before.lobbies[l];
        NothingMoved(before, user.index, l);
      }
    }

    method LobbyEnter(session: int, lobbyId: int) returns (r: Reply)
      requires Valid()
      modifies Objects(), net
      ensures Valid() && Follows(H.LobbyEnter(patch, old(View()), session, lobbyId), r, old(net.log))
    {
      ghost var o := H.LobbyEnter(patch, View(), session, lobbyId);
      var code, user := GetUser(session);
      if code != NONE {
        r := Answer(o, session, LobbyEnterRes(code, None), LOBBY_ENTER_INVALID_DOMAIN);
        return;
      }
      if user.domain != DomainLogin {
        r := Answer(o, session, LobbyEnterRes(LOBBY_ENTER_INVALID_DOMAIN, None), LOBBY_ENTER_INVALID_DOMAIN);
        return;
      }
      var lobby := lm.GetLobby(lobbyId);
      if lobby == null {
        r := Answer(o, session, LobbyEnterRes(LOBBY_ENTER_INVALID_LOBBY_INDEX, None), LOBBY_ENTER_INVALID_LOBBY_INDEX);
        return;
      }
      r := AdmitToLobby(session, user, lobbyId);
    }

    method LeaveLobbyObject(l: int, userIndex: int) returns (code: Code)
      requires Valid() && 0 <= l < |lm.lobbies|
      modifies um.pool, lm.lobbies[l]
      ensures Valid() && (View(), code) == old(View()).LeaveLobby(patch, l, userIndex)
    {
      ghost var before, found := View(), lm.lobbies[l].byIndex;
      assert found.Keys == before.lobbies[l].byIndex.Keys;
      code := CallLeaveUser(l, userIndex);
      if userIndex in found {
        MemberLeft(before, found[userIndex], l, userIndex, code);
      } else {
        OneLobbyChanged(lm.lobbies, before.lobbies, l);
        StrangerLeaves(patch, before, l, userIndex);
      }
    }

    // Lobby::LeaveUser, for a lobby of this server.
    method CallLeaveUser(l: int, userIndex: int) returns (code: Code)
      requires Valid() && 0 <= l < |lm.lobbies|
      modifies lm.lobbies[l]
      modifies if userIndex in lm.lobbies[l].byIndex then {lm.lobbies[l].byIndex[userIndex]} else {}
      ensures Valid()
      ensures var found := userIndex in old(lm.lobbies[l].byIndex);
              && (lm.lobbies[l].View(), code) ==
                 old(lm.lobbies[l].View()).Leave(patch, userIndex, if found then old(lm.lobbies[l].byIndex[userIndex].id) else "")
              && (found ==> old(lm.lobbies[l].byIndex[userIndex]).View() ==
                            old(lm.lobbies[l].byIndex[userIndex].View()).LeftLobby())
      ensures forall k :: 0 <= k < |lm.lobbies| && k != l ==> lm.lobbies[k].View() == old(lm.lobbies[k].View())
    {
      assert LobbyValid(lm.lobbies[l], l, um.pool, patch, net);
      code := lm.lobbies[l].LeaveUser(userIndex, um.pool);
      forall k | 0 <= k < |lm.lobbies| && k != l ensures LobbyValid(lm.lobbies[k], k, um.pool, patch, net) {
        assert old(LobbyValid(lm.lobbies[k], k, um.pool, patch, net));
      }
    }

    method LobbyLeave(session: int) returns (r: Reply)
      requires Valid()
      modifies Objects(), net
      ensures Valid() && Follows(H.LobbyLeave(patch, old(View()), session), r, old(net.log))
    {
      ghost var o := H.LobbyLeave(patch, View(), session);
      var code, user := GetUser(session);
      if code != NONE {
        r := Answer(o, session, LobbyLeaveRes(code), code);
        return;
      }
      if user.domain != DomainLobby {
        r := Answer(o, session, LobbyLeaveRes(LOBBY_LEAVE_INVALID_DOMAIN), LOBBY_LEAVE_INVALID_DOMAIN);
        return;
      }
      var lobby := lm.GetLobby(user.lobby);
      if lobby == null {
        r := Answer(o, session, LobbyLeaveRes(LOBBY_LEAVE_INVALID_LOBBY_INDEX), LOBBY_LEAVE_INVALID_LOBBY_INDEX);
        return;
      }
      assert o == LobbyLeaveOutcome(View(), session, user.lobby, user.index, patch);
      r := LeaveFoundLobby(session, user.lobby, user.index);
    }

    // LobbyLeave once user and lobby are found.
    method LeaveFoundLobby(session: int, l: int, userIndex: int) returns (r: Reply)
      requires Valid() && 0 <= l < |lm.lobbies|
      modifies um.pool, lm.lobbies[l], net
      ensures Valid()
      ensures Follows(LobbyLeaveOutcome(old(View()), session, l, userIndex, patch), r, old(net.log))
    {
      var code := LeaveLobbyObject(l, userIndex);
      Send(session, LobbyLeaveRes(code));
      return Returned(code);
    }

    method LobbyList(session: int) returns (r: Reply)
      requires Valid()
      modifies net
      ensures Valid() && Follows(H.LobbyList(patch, old(View()), session), r, old(net.log))
    {
      ghost var o := H.LobbyList(patch, View(), session);
      var code, user := GetUser(session);
      if code != NONE {
        r := Answer(o, session, LobbyListRes(code, []), code);
        return;
      }
      if user.domain != DomainLogin {
        r := Answer(o, session, LobbyListRes(LOBBY_LIST_INVALID_DOMAIN, []), LOBBY_LIST_INVALID_DOMAIN);
        return;
      }
      assert forall l :: 0 <= l < |lm.lobbies| ==> LobbyValid(lm.lobbies[l], l, um.pool, patch, net);
      lm.SendLobbyListInfo(session);
      return Returned(NONE);
    }

    method CreateRoomObject(l: int, k: int, title: string) returns (code: Code)
      requires Valid() && 0 <= l < |lm.lobbies| && 0 <= k < |lm.lobbies[l].rooms|
      modifies lm.lobbies[l].rooms[k]
      ensures Valid()
      ensures var (room, c) := old(View()).lobbies[l].rooms[k].Create(title);
              code == c && View() == old(View()).WithRoom(l, k, room)
    {
      ghost var before := View();
      code := lm.lobbies[l].rooms[k].CreateRoom(title);
      RoomMoved(before, l, k);
    }

    // The state change of taking a seat.
    method SitDown(user: User, l: int, k: int) returns (code: Code)
      requires Valid() && user in um.pool && 0 <= l < |lm.lobbies| && 0 <= k < |lm.lobbies[l].rooms|
      modifies user, lm.lobbies[l].rooms[k]
      ensures Valid()
      ensures var s := old(View());
              var (room', c) := s.lobbies[l].rooms[k].Enter(user.index);
              && code == c
              && View() == if c != NONE then s.WithRoom(l, k, room')
                           else s.WithRoom(l, k, room').WithUser(user.index, s.User(user.index).EnteredRoom(l, room'.index))
    {
      PositionOf(um.pool, user);
      var room := lm.lobbies[l].rooms[k];
      ghost var before := View();
      code := room.EnterUser(user);
      RoomMoved(before, l, k);
      if code == NONE {
        ghost var between := View();
        user.EnterRoom(l, room.index);
        UserMoved(between, user);
      }
    }

    method SeatInRoom(session: int, user: User, l: int, k: int) returns (r: Reply)
      requires Valid() && user in um.pool && 0 <= l < |lm.lobbies| && 0 <= k < |lm.lobbies[l].rooms|
      modifies user, lm.lobbies[l].rooms[k], net
      ensures Valid()
      ensures Follows(H.SeatInRoom(old(View()), session, user.index, l, k, old(View()).lobbies[l].rooms[k]), r, old(net.log))
    {
      PositionOf(um.pool, user);
      ghost var o := H.SeatInRoom(View(), session, user.index, l, k, View().lobbies[l].rooms[k]);
      var code := SitDown(user, l, k);
      if code != NONE {
        Send(session, RoomEnterRes(code));
        return Returned(code);
      }
      assert View().users[user.index] == user.View() && user.id == old(user.id);
      assert o == H.Done(View(), NONE, SendToAll(View().users, View().lobbies[l].rooms[k].members, user.index,
                                                 NewUserNtf(user.id)) + [Sent(session, RoomEnterRes(NONE))]);
      AnnounceEntry(session, l, k, user.index, user.id);
      return Returned(NONE);
    }

    method AnnounceEntry(session: int, l: int, k: int, userIndex: int, id: string)
      requires Valid() && 0 <= l < |lm.lobbies| && 0 <= k < |lm.lobbies[l].rooms|
      modifies net
      ensures Valid() && View() == old(View())
      ensures net.log == old(net.log) + (SendToAll(View().users, View().lobbies[l].rooms[k].members, userIndex, NewUserNtf(id))
                                         + [Sent(session, RoomEnterRes(NONE))])
    {
      assert LobbyValid(lm.lobbies[l], l, um.pool, patch, net);
      RoomHears(l, k, userIndex, NewUserNtf(id));
      ghost var before := View();
      lm.lobbies[l].rooms[k].NotifyEnterUserInfo(userIndex, id);
      assert View() == before;
      Send(session, RoomEnterRes(NONE));
    }

    method RoomEnter(session: int, isCreate: bool, roomIndex: int, title: string) returns (r: Reply)
      requires Valid()
      modifies Objects(), net
      ensures Valid() && Follows(H.RoomEnter(old(View()), session, isCreate, roomIndex, title), r, old(net.log))
    {
      ghost var o := H.RoomEnter(View(), session, isCreate, roomIndex, title);
      var code, user := GetUser(session);
      if code != NONE {
        r := Answer(o, session, RoomEnterRes(code), code);
        return;
      }
      if user.domain != DomainLobby {
        r := Answer(o, session, RoomEnterRes(ROOM_ENTER_INVALID_DOMAIN), ROOM_ENTER_INVALID_DOMAIN);
        return;
      }
      assert o == EnterAnyOutcome(View(), session, user.index, isCreate, roomIndex, title);
      r := EnterFromLobby(session, user, isCreate, roomIndex, title);
    }

    // RoomEnter once the user is found and in a lobby.
    method EnterFromLobby(session: int, user: User, isCreate: bool, roomIndex: int, title: string) returns (r: Reply)
      requires Valid() && user in um.pool
      modifies user, RoomsIn(lm.lobbies), net
      ensures Valid()
      ensures Follows(EnterAnyOutcome(old(View()), session, user.index, isCreate, roomIndex, title), r, old(net.log))
    {
      PositionOf(um.pool, user);
      var lobby := lm.GetLobby(user.lobby);
      if lobby == null {
        ghost var o := EnterAnyOutcome(View(), session, user.index, isCreate, roomIndex, title);
        r := Answer(o, session, RoomEnterRes(ROOM_ENTER_INVALID_LOBBY_INDEX), ROOM_ENTER_INVALID_LOBBY_INDEX);
        return;
      }
      r := EnterChosenRoom(session, user, user.lobby, isCreate, roomIndex, title);
    }

    // RoomEnter once user and lobby are found.
    method EnterChosenRoom(session: int, user: User, l: int, isCreate: bool, roomIndex: int, title: string)
      returns (r: Reply)
      requires Valid() && user in um.pool && 0 <= l < |lm.lobbies|
      modifies user, lm.lobbies[l].rooms, net
      ensures Valid()
      ensures Follows(EnterOutcome(old(View()), session, user.index, l, isCreate, roomIndex, title), r, old(net.log))
    {
      if isCreate {
        r := EnterNewRoom(session, user, l, title);
        return;
      }
      var room := lm.lobbies[l].GetRoom(roomIndex);
      if room == null {
        ghost var o := EnterOutcome(View(), session, user.index, l, isCreate, roomIndex, title);
        r := Answer(o, session, RoomEnterRes(ROOM_ENTER_INVALID_ROOM_INDEX), ROOM_ENTER_INVALID_ROOM_INDEX);
        return;
      }
      r := SeatInRoom(session, user, l, roomIndex);
    }

    method EnterNewRoom(session: int, user: User, l: int, title: string) returns (r: Reply)
      requires Valid() && user in um.pool && 0 <= l < |lm.lobbies|
      modifies user, lm.lobbies[l].rooms, net
      ensures Valid() && Follows(EnterOutcome(old(View()), session, user.index, l, true, 0, title), r, old(net.log))
    {
      ghost var o := EnterOutcome(View(), session, user.index, l, true, 0, title);
      var room := lm.lobbies[l].AllocRoom();
      if room == null {
        r := Answer(o, session, RoomEnterRes(ROOM_ENTER_EMPTY_ROOM), ROOM_ENTER_EMPTY_ROOM);
        return;
      }
      var k := room.index;
      assert LobbyValid(lm.lobbies[l], l, um.pool, patch, net) && room == lm.lobbies[l].rooms[k];
      ghost var before := View();
      var code := CreateRoomObject(l, k, title);
      assert code == NONE;
      SeatAfterCreate(before, session, user.index, l, k, View().lobbies[l].rooms[k]);
      r := SeatInRoom(session, user, l, k);
    }

    // The state change of leaving a seat.
    method StandUp(user: User, l: int, k: int) returns (code: Code)
      requires Valid() && user in um.pool && 0 <= l < |lm.lobbies| && 0 <= k < |lm.lobbies[l].rooms|
      modifies user, lm.lobbies[l].rooms[k]
      ensures Valid()
      ensures var s := old(View());
              var (room', c) := s.lobbies[l].rooms[k].Leave(user.index);
              && code == c
              && View() == if c != NONE then s
                           else s.WithRoom(l, k, room').WithUser(user.index, s.User(user.index).EnteredLobby(l))
    {
      PositionOf(um.pool, user);
      ghost var before := View();
      code := lm.lobbies[l].rooms[k].LeaveUser(user.index);
      RoomMoved(before, l, k);
      if code == NONE {
        ghost var between := View();
        user.EnterLobby(l);
        UserMoved(between, user);
      } else {
        SameRoomSameState(before, l, k);
      }
    }

    method NotifyRoom(l: int, k: int, id: string)
      requires Valid() && 0 <= l < |lm.lobbies| && 0 <= k < |lm.lobbies[l].rooms|
      modifies net
      ensures Valid() && View() == old(View())
      ensures net.log == old(net.log) + H.NotifyLeave(View().users, View().lobbies[l].rooms[k], id)
    {
      assert LobbyValid(lm.lobbies[l], l, um.pool, patch, net);
      RoomHears(l, k, -1, LeaveUserNtf(id));
      ghost var before := View();
      lm.lobbies[l].rooms[k].NotifyLeaveUserInfo(id);
      assert View() == before;
    }

    method LeaveSeat(session: int, user: User, l: int, k: int) returns (r: Reply)
      requires Valid() && user in um.pool && 0 <= l < |lm.lobbies| && 0 <= k < |lm.lobbies[l].rooms|
      modifies user, lm.lobbies[l].rooms[k], net
      ensures Valid() && Follows(H.LeaveSeat(old(View()), session, user.index, l, k), r, old(net.log))
    {
      PositionOf(um.pool, user);
      ghost var s := View();
      var id := user.id;
      assert s.users[user.index].id == id;
      var code := StandUp(user, l, k);
      if code != NONE {
        Send(session, RoomEnterRes(code));
        return Returned(code);
      }
      SeatLeft(s, session, user.index, l, k);
      AnnounceDeparture(session, l, k, id);
      return Returned(NONE);
    }

    method AnnounceDeparture(session: int, l: int, k: int, id: string)
      requires Valid() && 0 <= l < |lm.lobbies| && 0 <= k < |lm.lobbies[l].rooms|
      modifies net
      ensures Valid() && View() == old(View())
      ensures net.log == old(net.log) + (H.NotifyLeave(View().users, View().lobbies[l].rooms[k], id)
                                         + [Sent(session, RoomEnterRes(NONE))])
    {
      NotifyRoom(l, k, id);
      Send(session, RoomEnterRes(NONE));
    }

    // Whether the user's lobby index, and then its room index, lead anywhere.
    method FindSeat(user: User) returns (inLobby: bool, inRoom: bool)
      requires Valid()
      ensures inLobby == View().HasLobby(user.lobby)
      ensures inRoom == (inLobby && View().lobbies[user.lobby].HasRoom(user.room))
    {
      var lobby := lm.GetLobby(user.lobby);
      if lobby == null {
        return false, false;
      }
      var room := lobby.GetRoom(user.room);
      return true, room != null;
    }

    method RoomLeave(session: int) returns (r: Reply)
      requires Valid()
      modifies Objects(), net
      ensures Valid() && Follows(H.RoomLeave(old(View()), session), r, old(net.log))
    {
      ghost var o := H.RoomLeave(View(), session);
      var code, user := GetUser(session);
      if code != NONE {
        r := Answer(o, session, RoomEnterRes(code), code);
        return;
      }
      if user.domain != DomainRoom {
        r := Answer(o, session, RoomEnterRes(ROOM_LEAVE_INVALID_DOMAIN), ROOM_LEAVE_INVALID_DOMAIN);
        return;
      }
      assert o == LeaveOutcome(View(), session, user.index);
      r := LeaveNamedSeat(session, user);
    }

    // RoomLeave once the user is found and in a room.
    method LeaveNamedSeat(session: int, user: User) returns (r: Reply)
      requires Valid() && user in um.pool
      modifies user, RoomsIn(lm.lobbies), net
      ensures Valid() && Follows(LeaveOutcome(old(View()), session, user.index), r, old(net.log))
    {
      ghost var o := LeaveOutcome(View(), session, user.index);
      PositionOf(um.pool, user);
      var inLobby, inRoom := FindSeat(user);
      if !inLobby {
        r := Answer(o, session, RoomEnterRes(ROOM_ENTER_INVALID_LOBBY_INDEX), ROOM_ENTER_INVALID_LOBBY_INDEX);
        return;
      }
      if !inRoom {
        r := Answer(o, session, RoomEnterRes(ROOM_ENTER_INVALID_ROOM_INDEX), ROOM_ENTER_INVALID_ROOM_INDEX);
        return;
      }
      r := LeaveSeat(session, user, user.lobby, user.room);
    }

    method RoomChat(session: int, msg: string) returns (r: Reply)
      requires Valid()
      modifies net
      ensures Valid() && Follows(H.RoomChat(patch, old(View()), session, msg), r, old(net.log))
    {
      ghost var o := H.RoomChat(patch, View(), session, msg);
      var code, user := GetUser(session);
      if code != NONE {
        r := Answer(o, session, RoomChatRes(code), code);
        return;
      }
      if user.domain != DomainRoom {
        r := Answer(o, session, RoomChatRes(ROOM_CHAT_INVALID_DOMAIN), ROOM_CHAT_INVALID_DOMAIN);
        return;
      }
      var inLobby, inRoom := FindSeat(user);
      if !inLobby {
        r := Answer(o, session, RoomChatRes(ROOM_CHAT_INVALID_LOBBY_INDEX), ROOM_CHAT_INVALID_LOBBY_INDEX);
        return;
      }
      if !inRoom {
        r := Answer(o, session, RoomChatRes(ROOM_CHAT_INVALID_ROOM_INDEX), ROOM_CHAT_INVALID_ROOM_INDEX);
        return;
      }
      var pass := if patch.passByUser then user.index else user.session;
      assert o == H.Done(View(), NONE, SendToAll(View().users, View().lobbies[user.lobby].rooms[user.room].members, pass,
                                                 ChatNtf(user.id, msg)) + [Sent(session, RoomEnterRes(NONE))]);
      ChatInRoom(session, user.lobby, user.room, pass, user.id, msg);
      return Returned(NONE);
    }

    // RoomChat once user, lobby and room are found; `pass` is the index NotifyChat passes over.
    method ChatInRoom(session: int, l: int, k: int, pass: int, id: string, msg: string)
      requires Valid() && 0 <= l < |lm.lobbies| && 0 <= k < |lm.lobbies[l].rooms|
      modifies net
      ensures Valid() && View() == old(View())
      ensures net.log == old(net.log) + (SendToAll(View().users, View().lobbies[l].rooms[k].members, pass, ChatNtf(id, msg))
                                         + [Sent(session, RoomEnterRes(NONE))])
    {
      assert LobbyValid(lm.lobbies[l], l, um.pool, patch, net);
      RoomHears(l, k, pass, ChatNtf(id, msg));
      ghost var before := View();
      lm.lobbies[l].rooms[k].NotifyChat(pass, id, msg);
      assert View() == before;
      Send(session, RoomEnterRes(NONE));
    }

    // Leaving the room the user's index leads to, member or not, and the notice to those left.
    method LeaveRoomOnClose(user: User, l: int, k: int)
      requires Valid() && user in um.pool && 0 <= l < |lm.lobbies| && 0 <= k < |lm.lobbies[l].rooms|
      modifies lm.lobbies[l].rooms[k], net
      ensures Valid()
      ensures var s := old(View());
              var (room', code) := s.lobbies[l].rooms[k].Leave(user.index);
              && View() == s.WithRoom(l, k, room')
              && net.log == old(net.log) + if patch.notifyIfMember && code != NONE then []
                                           else H.NotifyLeave(s.users, room', user.id)
    {
      var room := lm.lobbies[l].rooms[k];
      ghost var before := View();
      var code := room.LeaveUser(user.index);
      RoomMoved(before, l, k);
      if !patch.notifyIfMember || code == NONE {
        NotifyRoom(l, k, user.id);
      }
    }

    method LeaveAll(user: User)
      requires Valid() && user in um.pool
      modifies um.pool, lm.lobbies, RoomsIn(lm.lobbies), net
      ensures Valid()
      ensures var (s, sent) := H.LeaveAll(patch, old(View()), user.index);
              View() == s && net.log == old(net.log) + sent
    {
      PositionOf(um.pool, user);
      ghost var s := View();
      var l, k := user.lobby, user.room;
      var inLobby, inRoom := FindSeat(user);
      if !inLobby {
        return;
      }
      if inRoom {
        LeaveRoomOnClose(user, l, k);
      }
      ghost var s1 := View();
      assert H.LeaveAll(patch, s, user.index).0 == s1.LeaveLobby(patch, l, user.index).0;
      var code := LeaveLobbyObject(l, user.index);
    }

    method RemoveUserObject(session: int)
      requires Valid()
      modifies um, um.pool
      ensures Valid() && View() == old(View()).RemoveUser(patch, session).0
    {
      ghost var before := View();
      var code := um.RemoveUser(session);
      assert LobbyViews(lm.lobbies) == before.lobbies;
      assert um.View() == before.(lobbies := []).RemoveUser(patch, session).0;
    }

    method NtfSysCloseSession(session: int) returns (r: Reply)
      requires Valid()
      modifies Objects(), net
      ensures Valid() && Follows(H.CloseSession(patch, old(View()), session), r, old(net.log))
    {
      ghost var s := View();
      var code, user := GetUser(session);
      if user == null {
        assert H.CloseSession(patch, s, session) == H.Done(s, NONE, []);
        return Returned(NONE);
      }
      CloseOutcome(patch, s, session, user.index);
      CloseUser(session, user);
      return Returned(NONE);
    }

    // NtfSysCloseSession once the user is found.
    method CloseUser(session: int, user: User)
      requires Valid() && user in um.pool
      modifies Objects(), net
      ensures Valid()
      ensures var (s1, sent) := H.LeaveAll(patch, old(View()), user.index);
              View() == s1.RemoveUser(patch, session).0 && net.log == old(net.log) + sent
    {
      LeaveAll(user);
      RemoveUserObject(session);
    }

    method DevEcho(session: int, data: string) returns (r: Reply)
      requires Valid()
      modifies net
      ensures Valid() && Follows(H.Step(patch, old(View()), EchoReq(session, data)), r, old(net.log))
    {
      Send(session, EchoRes(data));
      return Returned(NONE);
    }

    /** One packet, dispatched: the reply, the state afterwards and the packets sent are those of the state machine. */
    method Process(e: Event) returns (r: Reply)
      requires Valid()
      modifies Objects(), net
      ensures Valid() && Follows(H.Step(patch, old(View()), e), r, old(net.log))
    {
      match e {
        case Connect(_) => r := Returned(NONE);
        case Close(session) => r := NtfSysCloseSession(session);
        case LoginReq(session, id, buffer) => r := Login(session, id, buffer);
        case LobbyListReq(session) => r := LobbyList(session);
        case LobbyEnterReq(session, lobbyId) => r := LobbyEnter(session, lobbyId);
        case LobbyLeaveReq(session) => r := LobbyLeave(session);
        case RoomEnterReq(session, isCreate, roomIndex, title) => r := RoomEnter(session, isCreate, roomIndex, title);
        case RoomLeaveReq(session) => r := RoomLeave(session);
        case RoomChatReq(session, msg) => r := RoomChat(session, msg);
        case EchoReq(session, data) => r := DevEcho(session, data);
        case Unregistered(_) => r := Returned(NONE);
      }
    }
  }

  // The outcome of RoomEnter once user and lobby are found.
  function EnterOutcome(s: ServerState, session: int, u: int, l: int, isCreate: bool, roomIndex: int, title: string)
    : H.Outcome
    requires 0 <= l < |s.lobbies|
  {
    match H.ChooseRoom(s.lobbies[l], isCreate, roomIndex, title)
    case Refused(code) => H.Done(s, code, [Sent(session, RoomEnterRes(code))])
    case Chosen(k, room) => H.SeatInRoom(s, session, u, l, k, room)
  }

  // The outcome of RoomEnter once the user is found and in a lobby.
  function EnterAnyOutcome(s: ServerState, session: int, u: int, isCreate: bool, roomIndex: int, title: string): H.Outcome {
    var l := s.User(u).lobby;
    if !s.HasLobby(l) then
      H.Done(s, ROOM_ENTER_INVALID_LOBBY_INDEX, [Sent(session, RoomEnterRes(ROOM_ENTER_INVALID_LOBBY_INDEX))])
    else
      EnterOutcome(s, session, u, l, isCreate, roomIndex, title)
  }

  // The outcome of LobbyLeave once user and lobby are found.
  function LobbyLeaveOutcome(s: ServerState, session: int, l: int, u: int, p: Patch): H.Outcome
    requires 0 <= l < |s.lobbies|
  {
    var (s', code) := s.LeaveLobby(p, l, u);
    H.Done(s', code, [Sent(session, LobbyLeaveRes(code))])
  }

  lemma CloseOutcome(p: Patch, s: ServerState, session: int, u: int)
    requires s.GetUser(session) == Found(u)
    ensures var (s1, sent) := H.LeaveAll(p, s, u);
            H.CloseSession(p, s, session) == H.Done(s1.RemoveUser(p, session).0, NONE, sent)
  {
  }

  // The outcome of RoomLeave once the user is found and in a room.
  function LeaveOutcome(s: ServerState, session: int, u: int): H.Outcome {
    var user := s.User(u);
    if !s.HasLobby(user.lobby) then
      H.Done(s, ROOM_ENTER_INVALID_LOBBY_INDEX, [Sent(session, RoomEnterRes(ROOM_ENTER_INVALID_LOBBY_INDEX))])
    else if !s.lobbies[user.lobby].HasRoom(user.room) then
      H.Done(s, ROOM_ENTER_INVALID_ROOM_INDEX, [Sent(session, RoomEnterRes(ROOM_ENTER_INVALID_ROOM_INDEX))])
    else
      H.LeaveSeat(s, session, u, user.lobby, user.room)
  }

  // The outcome of leaving a seat, in terms of the state it leads to.
  lemma SeatLeft(s: ServerState, session: int, u: int, l: int, k: int)
    requires 0 <= l < |s.lobbies| && s.lobbies[l].HasRoom(k) && 0 <= u < |s.users| && s.users[u].index == u
    requires s.lobbies[l].rooms[k].Leave(u).1 == NONE
    ensures var s' := s.WithRoom(l, k, s.lobbies[l].rooms[k].Leave(u).0).WithUser(u, s.users[u].EnteredLobby(l));
            && s'.lobbies[l].HasRoom(k) && s'.users[u].id == s.users[u].id
            && H.LeaveSeat(s, session, u, l, k) ==
               H.Done(s', NONE, H.NotifyLeave(s'.users, s'.lobbies[l].rooms[k], s'.users[u].id)
                                + [Sent(session, RoomEnterRes(NONE))])
  {
  }

  // Taking a seat reads the room it is given, so creating the room first or along the way is the same.
  lemma SeatAfterCreate(s: ServerState, session: int, u: int, l: int, k: int, room: RoomState)
    requires 0 <= l < |s.lobbies| && s.lobbies[l].HasRoom(k)
    ensures H.SeatInRoom(s.WithRoom(l, k, room), session, u, l, k, room) == H.SeatInRoom(s, session, u, l, k, room)
  {
    var rooms := s.lobbies[l].rooms;
    forall room' ensures s.WithRoom(l, k, room).WithRoom(l, k, room') == s.WithRoom(l, k, room') {
      assert rooms[k := room][k := room'] == rooms[k := room'];
      assert s.WithRoom(l, k, room).WithRoom(l, k, room').lobbies == s.WithRoom(l, k, room').lobbies;
    }
  }
}
