/** The dictionaries of the user manager and the ID dictionaries of the lobbies. */
module Registry {
  import opened Types
  import opened State
  import opened Handlers
  import opened Invariant

  /** Keyed by text, the user manager's ID dictionary holds exactly the confirmed users, so no ID is shared. */
  ghost predicate TextIds(s: ServerState) {
    && (forall u :: 0 <= u < |s.users| && s.users[u].confirmed ==> HasKey(s.byId, Text(s.users[u].id), u))
    && forall k :: k in s.byId ==>
        0 <= s.byId[k] < |s.users| && s.users[s.byId[k]].confirmed && k == Text(s.users[s.byId[k]].id)
  }

  ghost predicate HasKey<K, V>(m: map<K, V>, k: K, v: V) {
    k in m && m[k] == v
  }

  /** The ID dictionary of a lobby holds exactly the users of its index dictionary, each under its own key. */
  ghost predicate IdsAgree(p: Patch, users: seq<UserState>, lobby: LobbyState) {
    && (forall u :: u in lobby.byIndex ==> HasKey(lobby.byId, LobbyKey(p, u, UserAt(users, u).id), u))
    && forall k :: k in lobby.byId ==>
        lobby.byId[k] in lobby.byIndex && k == LobbyKey(p, lobby.byId[k], UserAt(users, lobby.byId[k]).id)
  }

  ghost predicate IdsInv(p: Patch, s: ServerState) {
    && (p.keyByText ==> TextIds(s))
    && forall l :: 0 <= l < |s.lobbies| ==> IdsAgree(p, s.users, s.lobbies[l])
  }

  // The session of user u leads to u.
  ghost predicate Linked(s: ServerState, u: int)
    requires 0 <= u < |s.users|
  {
    HasKey(s.bySession, s.users[u].session, u)
  }

  /**
   * Every entry of the session dictionary leads to a confirmed user of that session, so no two sessions share a
   * user; and a confirmed user that no session leads to never gets past LOGIN.
   */
  ghost predicate SessionsInv(s: ServerState) {
    && (forall session :: session in s.bySession ==>
         && 0 <= s.bySession[session] < |s.users|
         && s.users[s.bySession[session]].confirmed
         && s.users[s.bySession[session]].session == session)
    && forall u :: 0 <= u < |s.users| && s.users[u].confirmed && !Linked(s, u) ==> s.users[u].domain == DomainLogin
  }

  /** No confirmed user has lost its session; with SessionsInv, sessions and confirmed users are in bijection. */
  ghost predicate AllLinked(s: ServerState) {
    forall u :: 0 <= u < |s.users| && s.users[u].confirmed ==> Linked(s, u)
  }

  // A login request for a session that is not logged in.
  predicate FreshLogin(s: ServerState, e: Event) {
    e.LoginReq? ==> e.session !in s.bySession
  }

  // A close of this session erases its own entry.
  predicate ErasesOwn(p: Patch, s: ServerState, e: Event) {
    e.Close? && e.session in s.bySession ==> p.eraseBySession || s.bySession[e.session] == e.session
  }

  /** Along the run, no session that is logged in asks to log in again. */
  predicate Polite(p: Patch, s: ServerState, es: seq<Event>)
    decreases |es|
  {
    es == [] ||
    (FreshLogin(s, es[0]) &&
     match Step(p, s, es[0])
     case Undefined => true
     case Done(s', _, _) => Polite(p, s', es[1..]))
  }

  // Who is logged in under which ID and session.
  ghost predicate SameIdentities(s: ServerState, s': ServerState) {
    && s'.free == s.free && s'.bySession == s.bySession && s'.byId == s.byId
    && SameUsers(s.users, s'.users)
  }

  ghost predicate SameUsers(users: seq<UserState>, users': seq<UserState>) {
    && |users'| == |users|
    && forall u :: 0 <= u < |users| ==> SameIdentity(users[u], users'[u])
  }

  ghost predicate SameIdentity(a: UserState, b: UserState) {
    a.index == b.index && a.session == b.session && a.id == b.id && a.confirmed == b.confirmed
  }

  lemma OneUserMoves(s: ServerState, s': ServerState, u: int)
    requires s'.free == s.free && s'.bySession == s.bySession && s'.byId == s.byId
    requires s'.users == s.users || (OnlyUser(s, s', u) && SameIdentity(s.users[u], s'.users[u]))
    ensures SameIdentities(s, s')
  {
  }

  lemma LeaveLobbyKeepsIdentities(p: Patch, s: ServerState, l: int, u: int)
    requires 0 <= l < |s.lobbies|
    ensures SameIdentities(s, s.LeaveLobby(p, l, u).0)
  {
    OneUserMoves(s, s.LeaveLobby(p, l, u).0, if u in s.lobbies[l].byIndex then s.lobbies[l].byIndex[u] else 0);
  }

  lemma MovesKeepIdentities(p: Patch, s: ServerState, e: Event)
    requires Step(p, s, e).Done? && !e.LoginReq? && !e.Close?
    ensures SameIdentities(s, Step(p, s, e).state)
  {
    match e {
      case LobbyEnterReq(session, lobbyId) => LobbyEnterKeepsIdentities(p, s, session, lobbyId);
      case LobbyLeaveReq(session) =>
        if s.GetUser(session).Found? && s.HasLobby(s.User(s.bySession[session]).lobby) {
          var user := s.User(s.bySession[session]);
          LeaveLobbyKeepsIdentities(p, s, user.lobby, user.index);
        }
      case RoomEnterReq(session, isCreate, roomIndex, title) =>
        RoomEnterKeepsIdentities(s, session, isCreate, roomIndex, title);
      case RoomLeaveReq(session) => RoomLeaveKeepsIdentities(s, session);
      case _ =>
    }
  }

  lemma LobbyEnterKeepsIdentities(p: Patch, s: ServerState, session: int, lobbyId: int)
    requires LobbyEnter(p, s, session, lobbyId).Done?
    ensures SameIdentities(s, LobbyEnter(p, s, session, lobbyId).state)
  {
    OneUserMoves(s, LobbyEnter(p, s, session, lobbyId).state, if session in s.bySession then s.bySession[session] else 0);
  }

  lemma RoomEnterKeepsIdentities(s: ServerState, session: int, isCreate: bool, roomIndex: int, title: string)
    ensures RoomEnter(s, session, isCreate, roomIndex, title).Done?
    ensures SameIdentities(s, RoomEnter(s, session, isCreate, roomIndex, title).state)
  {
    OneUserMoves(s, RoomEnter(s, session, isCreate, roomIndex, title).state,
                 if session in s.bySession then s.bySession[session] else 0);
  }

  lemma RoomLeaveKeepsIdentities(s: ServerState, session: int)
    ensures RoomLeave(s, session).Done? && SameIdentities(s, RoomLeave(s, session).state)
  {
    OneUserMoves(s, RoomLeave(s, session).state, if session in s.bySession then s.bySession[session] else 0);
  }

  lemma LeaveAllKeepsIdentities(p: Patch, s: ServerState, u: int)
    ensures SameIdentities(s, LeaveAll(p, s, u).0)
  {
    var l, r := s.User(u).lobby, s.User(u).room;
    if s.HasLobby(l) {
      var s1 := if s.lobbies[l].HasRoom(r) then s.WithRoom(l, r, s.lobbies[l].rooms[r].Leave(s.User(u).index).0) else s;
      LeaveLobbyKeepsIdentities(p, s1, l, s.User(u).index);
    }
  }

  lemma AddUserKeepsTextIds(p: Patch, s: ServerState, session: int, id: string, buffer: int)
    requires p.keyByText && Inv(s) && TextIds(s)
    ensures TextIds(s.AddUser(p, session, id, buffer).0)
  {
    if s.AddUser(p, session, id, buffer).1 == NONE {
      assert UserInv(s.users, s.free, s.free[0]);
    }
  }

  lemma RemoveUserKeepsTextIds(p: Patch, s: ServerState, session: int)
    requires p.keyByText && Inv(s) && TextIds(s) && s.GetUser(session).Found?
    ensures TextIds(s.RemoveUser(p, session).0)
  {
    assert UserInv(s.users, s.free, s.bySession[session]);
  }

  lemma AddUserKeepsSessions(p: Patch, s: ServerState, session: int, id: string, buffer: int)
    requires Inv(s) && SessionsInv(s)
    ensures var (s', code) := s.AddUser(p, session, id, buffer);
            && SessionsInv(s')
            && (code == NONE ==> (AllLinked(s') <==> AllLinked(s) && session !in s.bySession))
  {
    var (s', code) := s.AddUser(p, session, id, buffer);
    if code == NONE {
      var u := s.free[0];
      assert UserInv(s.users, s.free, u);
      forall v | 0 <= v < |s.users| && v != u && s.users[v].confirmed ensures Linked(s', v) == Linked(s, v) {
        assert s'.users[v] == s.users[v];
      }
      assert Linked(s', u) <==> session !in s.bySession;
      if AllLinked(s') {
        assert forall v :: 0 <= v < |s.users| && s.users[v].confirmed ==> s'.users[v].confirmed && Linked(s', v);
      }
    }
  }

  lemma RemoveUserKeepsSessions(p: Patch, s: ServerState, session: int)
    requires ErasesOwn(p, s, Close(session)) && Inv(s) && SessionsInv(s)
    ensures SessionsInv(s.RemoveUser(p, session).0)
    ensures AllLinked(s) ==> AllLinked(s.RemoveUser(p, session).0)
  {
    if session in s.bySession {
      var u, s' := s.bySession[session], s.RemoveUser(p, session).0;
      assert UserInv(s.users, s.free, u);
      forall v | 0 <= v < |s.users| && v != u && s.users[v].confirmed ensures Linked(s', v) == Linked(s, v) {
        assert s'.users[v] == s.users[v];
      }
    }
  }

  // Nobody but the user of the session is touched.
  lemma OthersStay(p: Patch, s: ServerState, e: Event, v: int)
    requires Inv(s) && Step(p, s, e).Done? && !e.LoginReq? && !e.Close?
    requires 0 <= v < |s.users| && (e.session in s.bySession ==> v != s.bySession[e.session])
    ensures |Step(p, s, e).state.users| == |s.users| && Step(p, s, e).state.users[v] == s.users[v]
  {
    if s.GetUser(e.session).Found? {
      var u := s.bySession[e.session];
      assert UserInv(s.users, s.free, u) && PlaceExists(s.users[u], s.lobbies);
      if e.LobbyLeaveReq? && s.HasLobby(s.users[u].lobby) {
        assert LobbyShape(s.lobbies[s.users[u].lobby]);
      }
    }
  }

  lemma MovesKeepSessions(p: Patch, s: ServerState, e: Event)
    requires Inv(s) && SessionsInv(s) && Step(p, s, e).Done? && !e.LoginReq? && !e.Close?
    ensures SessionsInv(Step(p, s, e).state) && (AllLinked(s) ==> AllLinked(Step(p, s, e).state))
  {
    var s' := Step(p, s, e).state;
    MovesKeepIdentities(p, s, e);
    forall v | 0 <= v < |s.users| ensures Linked(s', v) == Linked(s, v) && s'.users[v].confirmed == s.users[v].confirmed {
      assert SameIdentity(s.users[v], s'.users[v]);
    }
    forall v | 0 <= v < |s.users| && s.users[v].confirmed && !Linked(s, v) ensures s'.users[v].domain == DomainLogin {
      OthersStay(p, s, e, v);
    }
    forall session | session in s'.bySession ensures s'.users[s'.bySession[session]].session == session {
      assert SameIdentity(s.users[s.bySession[session]], s'.users[s.bySession[session]]);
    }
  }

  lemma LeaveAllKeepsSessions(p: Patch, s: ServerState, session: int)
    requires Inv(s) && SessionsInv(s) && s.GetUser(session).Found?
    ensures var s1 := LeaveAll(p, s, s.bySession[session]).0;
            SessionsInv(s1) && (AllLinked(s) ==> AllLinked(s1))
  {
    var s1 := LeaveAll(p, s, s.bySession[session]).0;
    LeaveAllKeepsIdentities(p, s, s.bySession[session]);
    LeaveAllChangesItsUser(p, s, session);
    forall v | 0 <= v < |s.users| ensures Linked(s1, v) == Linked(s, v) && s1.users[v].confirmed == s.users[v].confirmed {
      assert SameIdentity(s.users[v], s1.users[v]);
    }
    forall t | t in s1.bySession ensures s1.users[s1.bySession[t]].session == t {
      assert SameIdentity(s.users[s.bySession[t]], s1.users[s.bySession[t]]);
    }
  }

  lemma LeaveAllChangesItsUser(p: Patch, s: ServerState, session: int)
    requires Inv(s) && s.GetUser(session).Found?
    ensures var u := s.bySession[session];
            var s1 := LeaveAll(p, s, u).0;
            && s1.bySession == s.bySession && |s1.users| == |s.users|
            && s1.users[u].Cleared() == s.users[u].Cleared()
            && forall v :: 0 <= v < |s.users| && v != u ==> s1.users[v] == s.users[v]
  {
    var u := s.bySession[session];
    var l := s.User(u).lobby;
    assert UserInv(s.users, s.free, u);
    if s.HasLobby(l) {
      assert LobbyShape(s.lobbies[l]);
    }
  }

  lemma StepKeepsSessions(p: Patch, s: ServerState, e: Event)
    requires ErasesOwn(p, s, e) && Inv(s) && SessionsInv(s) && Step(p, s, e).Done?
    ensures SessionsInv(Step(p, s, e).state)
    ensures AllLinked(s) && FreshLogin(s, e) ==> AllLinked(Step(p, s, e).state)
  {
    match e {
      case LoginReq(session, id, buffer) => AddUserKeepsSessions(p, s, session, id, buffer);
      case Close(session) =>
        if s.GetUser(session).Found? {
          LeaveAllKeepsInv(p, s, session);
          LeaveAllKeepsSessions(p, s, session);
          RemoveUserKeepsSessions(p, LeaveAll(p, s, s.bySession[session]).0, session);
        }
      case _ => MovesKeepSessions(p, s, e);
    }
  }

  // Two confirmed users never have the same key in a lobby.
  lemma LobbyKeysDiffer(p: Patch, s: ServerState, u: int, v: int)
    requires Inv(s) && (p.keyByText ==> TextIds(s))
    requires 0 <= u < |s.users| && 0 <= v < |s.users| && s.users[u].confirmed && s.users[v].confirmed
    requires u != v
    ensures LobbyKey(p, u, s.users[u].id) != LobbyKey(p, v, s.users[v].id)
  {
    assert p.keyByText ==> HasKey(s.byId, Text(s.users[u].id), u) && HasKey(s.byId, Text(s.users[v].id), v);
  }

  // A confirmed user shares its key with no member of lobby l but itself.
  lemma KeyIsOwn(p: Patch, s: ServerState, l: int, u: int)
    requires Inv(s) && IdsInv(p, s) && 0 <= l < |s.lobbies|
    requires 0 <= u < |s.users| && s.users[u].confirmed
    ensures forall v :: v in s.lobbies[l].byIndex && v != u ==>
              LobbyKey(p, v, UserAt(s.users, v).id) != LobbyKey(p, u, s.users[u].id)
  {
    assert MembersAgree(s.users, s.lobbies[l], l);
    forall v | v in s.lobbies[l].byIndex && v != u
      ensures LobbyKey(p, v, UserAt(s.users, v).id) != LobbyKey(p, u, s.users[u].id)
    {
      assert UserInv(s.users, s.free, v);
      LobbyKeysDiffer(p, s, u, v);
    }
  }

  lemma EnterKeepsIds(p: Patch, users: seq<UserState>, lobby: LobbyState, u: int)
    requires IdsAgree(p, users, lobby) && lobby.Enter(p, u, UserAt(users, u).id).Entered?
    requires LobbyKey(p, u, UserAt(users, u).id) !in lobby.byId
    ensures IdsAgree(p, users, lobby.Enter(p, u, UserAt(users, u).id).lobby)
  {
    var lobby' := lobby.Enter(p, u, UserAt(users, u).id).lobby;
    forall v | v in lobby'.byIndex ensures HasKey(lobby'.byId, LobbyKey(p, v, UserAt(users, v).id), v) {
      assert v in lobby.byIndex ==> HasKey(lobby.byId, LobbyKey(p, v, UserAt(users, v).id), v);
    }
  }

  lemma LeaveKeepsIds(p: Patch, users: seq<UserState>, lobby: LobbyState, u: int)
    requires IdsAgree(p, users, lobby) && (u in lobby.byIndex ==> lobby.byIndex[u] == u)
    requires u in lobby.byIndex ==> forall v :: v in lobby.byIndex && v != u ==>
               LobbyKey(p, v, UserAt(users, v).id) != LobbyKey(p, u, UserAt(users, u).id)
    ensures IdsAgree(p, users, lobby.Leave(p, u, UserAt(users, u).id).0)
  {
    var lobby' := lobby.Leave(p, u, UserAt(users, u).id).0;
    forall v | v in lobby'.byIndex ensures HasKey(lobby'.byId, LobbyKey(p, v, UserAt(users, v).id), v) {
      assert HasKey(lobby.byId, LobbyKey(p, v, UserAt(users, v).id), v);
    }
  }

  // Moving users between places does not change their keys.
  lemma SameUsersAgree(p: Patch, users: seq<UserState>, users': seq<UserState>, lobby: LobbyState)
    requires IdsAgree(p, users, lobby) && SameUsers(users, users')
    ensures IdsAgree(p, users', lobby)
  {
    assert forall u :: UserAt(users', u).id == UserAt(users, u).id;
    forall u | u in lobby.byIndex ensures HasKey(lobby.byId, LobbyKey(p, u, UserAt(users', u).id), u) {
      assert HasKey(lobby.byId, LobbyKey(p, u, UserAt(users, u).id), u);
    }
  }

  lemma SameIdentitiesKeepTextIds(s: ServerState, s': ServerState)
    requires TextIds(s) && SameIdentities(s, s')
    ensures TextIds(s')
  {
    forall u | 0 <= u < |s'.users| && s'.users[u].confirmed ensures HasKey(s'.byId, Text(s'.users[u].id), u) {
      assert SameIdentity(s.users[u], s'.users[u]);
      assert HasKey(s.byId, Text(s.users[u].id), u);
    }
  }

  // A step that replaces lobby l by an agreeing one and moves users keeps IdsInv.
  lemma OneLobbyKeepsIds(p: Patch, s: ServerState, s': ServerState, l: int)
    requires IdsInv(p, s) && SameIdentities(s, s')
    requires 0 <= l < |s.lobbies| && |s'.lobbies| == |s.lobbies|
    requires s'.lobbies == s.lobbies[l := s'.lobbies[l]] && IdsAgree(p, s.users, s'.lobbies[l])
    ensures IdsInv(p, s')
  {
    if p.keyByText {
      SameIdentitiesKeepTextIds(s, s');
    }
    forall m | 0 <= m < |s.lobbies| ensures IdsAgree(p, s'.users, s'.lobbies[m]) {
      assert IdsAgree(p, s.users, s.lobbies[m]);
      SameUsersAgree(p, s.users, s'.users, s'.lobbies[m]);
    }
  }

  lemma LobbyEnterKeepsIds(p: Patch, s: ServerState, session: int, lobbyId: int)
    requires Inv(s) && IdsInv(p, s) && LobbyEnter(p, s, session, lobbyId).Done?
    ensures IdsInv(p, LobbyEnter(p, s, session, lobbyId).state)
  {
    var o := LobbyEnter(p, s, session, lobbyId);
    if o.code == NONE {
      var u := s.bySession[session];
      assert UserInv(s.users, s.free, u) && IdsAgree(p, s.users, s.lobbies[lobbyId]);
      KeyIsOwn(p, s, lobbyId, u);
      EnterKeepsIds(p, s.users, s.lobbies[lobbyId], u);
      MovesKeepIdentities(p, s, LobbyEnterReq(session, lobbyId));
      OneLobbyKeepsIds(p, s, o.state, lobbyId);
    }
  }

  lemma LeaveLobbyKeepsIds(p: Patch, s: ServerState, l: int, u: int)
    requires Inv(s) && IdsInv(p, s) && 0 <= l < |s.lobbies|
    ensures IdsInv(p, s.LeaveLobby(p, l, u).0)
  {
    var lobby := s.lobbies[l];
    assert IdsAgree(p, s.users, lobby) && MembersAgree(s.users, lobby, l) && LobbyShape(lobby);
    if u in lobby.byIndex {
      assert UserInv(s.users, s.free, u);
      KeyIsOwn(p, s, l, u);
    }
    LeaveKeepsIds(p, s.users, lobby, u);
    OneLobbyKeepsIds(p, s, s.LeaveLobby(p, l, u).0, l);
  }

  lemma RoomStepsKeepIds(p: Patch, s: ServerState, e: Event)
    requires IdsInv(p, s) && (e.RoomEnterReq? || e.RoomLeaveReq?)
    ensures Step(p, s, e).Done? && IdsInv(p, Step(p, s, e).state)
  {
    var s' := Step(p, s, e).state;
    MovesKeepIdentities(p, s, e);
    if s' != s {
      var l := s.User(s.bySession[e.session]).lobby;
      assert IdsAgree(p, s.users, s.lobbies[l]);
      assert s'.lobbies[l].byIndex == s.lobbies[l].byIndex && s'.lobbies[l].byId == s.lobbies[l].byId;
      OneLobbyKeepsIds(p, s, s', l);
    }
  }

  lemma AddUserKeepsIds(p: Patch, s: ServerState, session: int, id: string, buffer: int)
    requires Inv(s) && IdsInv(p, s)
    ensures IdsInv(p, s.AddUser(p, session, id, buffer).0)
  {
    var (s', code) := s.AddUser(p, session, id, buffer);
    if p.keyByText {
      AddUserKeepsTextIds(p, s, session, id, buffer);
    }
    if code == NONE {
      assert UserInv(s.users, s.free, s.free[0]);
      OutsiderKeepsIds(p, s, s', s.free[0]);
    }
  }

  lemma RemoveUserKeepsIds(p: Patch, s: ServerState, session: int)
    requires Inv(s) && IdsInv(p, s) && s.GetUser(session).Found?
    requires s.User(s.bySession[session]).domain == DomainLogin
    ensures IdsInv(p, s.RemoveUser(p, session).0)
  {
    if p.keyByText {
      RemoveUserKeepsTextIds(p, s, session);
    }
    assert UserInv(s.users, s.free, s.bySession[session]);
    OutsiderKeepsIds(p, s, s.RemoveUser(p, session).0, s.bySession[session]);
  }

  // A user in no lobby may change its ID without any lobby noticing.
  lemma OutsiderKeepsIds(p: Patch, s: ServerState, s': ServerState, u: int)
    requires Inv(s) && OnlyUser(s, s', u) && s'.lobbies == s.lobbies && !s.users[u].Placed()
    requires forall l :: 0 <= l < |s.lobbies| ==> IdsAgree(p, s.users, s.lobbies[l])
    ensures forall l :: 0 <= l < |s.lobbies| ==> IdsAgree(p, s'.users, s'.lobbies[l])
  {
    forall l | 0 <= l < |s.lobbies| ensures IdsAgree(p, s'.users, s'.lobbies[l]) {
      assert IdsAgree(p, s.users, s.lobbies[l]) && MembersAgree(s.users, s.lobbies[l], l);
    }
  }

  lemma LeaveAllKeepsIds(p: Patch, s: ServerState, session: int)
    requires Inv(s) && IdsInv(p, s) && s.GetUser(session).Found?
    ensures IdsInv(p, LeaveAll(p, s, s.bySession[session]).0)
  {
    var u := s.bySession[session];
    LeaveAllInSteps(p, s, session);
    if s.User(u).domain == DomainRoom {
      RoomLeaveKeepsInv(s, session);
      RoomLeaveKeepsIds(p, s, session);
      var s1, l := RoomLeave(s, session).state, s.User(u).lobby;
      assert |s1.lobbies| == |s.lobbies|;
      LeaveLobbyKeepsIds(p, s1, l, u);
    } else if s.HasLobby(s.User(u).lobby) {
      LeaveLobbyKeepsIds(p, s, s.User(u).lobby, u);
    }
  }

  lemma RoomLeaveKeepsIds(p: Patch, s: ServerState, session: int)
    requires IdsInv(p, s)
    ensures RoomLeave(s, session).Done? && IdsInv(p, RoomLeave(s, session).state)
  {
    RoomStepsKeepIds(p, s, RoomLeaveReq(session));
  }

  lemma StepKeepsIds(p: Patch, s: ServerState, e: Event)
    requires Inv(s) && IdsInv(p, s) && Step(p, s, e).Done?
    ensures IdsInv(p, Step(p, s, e).state)
  {
    match e {
      case LoginReq(session, id, buffer) => AddUserKeepsIds(p, s, session, id, buffer);
      case Close(session) =>
        if s.GetUser(session).Found? {
          LeaveAllKeepsIds(p, s, session);
          LeaveAllKeepsInv(p, s, session);
          LeaveAllKeepsIdentities(p, s, s.bySession[session]);
          RemoveUserKeepsIds(p, LeaveAll(p, s, s.bySession[session]).0, session);
        }
      case LobbyEnterReq(session, lobbyId) => LobbyEnterKeepsIds(p, s, session, lobbyId);
      case LobbyLeaveReq(session) =>
        if s.GetUser(session).Found? && s.HasLobby(s.User(s.bySession[session]).lobby) {
          var user := s.User(s.bySession[session]);
          LeaveLobbyKeepsIds(p, s, user.lobby, user.index);
        }
      case RoomEnterReq(_, _, _, _) => RoomStepsKeepIds(p, s, e);
      case RoomLeaveReq(_) => RoomStepsKeepIds(p, s, e);
      case _ =>
    }
  }

  lemma InitKeepsRegistry(p: Patch, cfg: Config)
    ensures IdsInv(p, Init(cfg)) && SessionsInv(Init(cfg)) && AllLinked(Init(cfg))
  {
    forall l | 0 <= l < |Init(cfg).lobbies| ensures IdsAgree(p, Init(cfg).users, Init(cfg).lobbies[l]) {
      assert Init(cfg).lobbies[l] == NewLobby(l, cfg);
    }
    assert forall u :: 0 <= u < |Init(cfg).users| ==> Init(cfg).users[u] == NewUser(u);
  }

  lemma {:induction false} RunKeepsIds(p: Patch, s: ServerState, es: seq<Event>)
    requires Inv(s) && IdsInv(p, s) && Run(p, s, es).Ran?
    ensures IdsInv(p, Run(p, s, es).state)
    decreases |es|
  {
    if es != [] {
      StepKeepsIds(p, s, es[0]);
      StepKeepsInv(p, s, es[0]);
      RunKeepsIds(p, Step(p, s, es[0]).state, es[1..]);
    }
  }

  lemma {:induction false} RunKeepsSessions(p: Patch, s: ServerState, es: seq<Event>)
    requires p.eraseBySession && Inv(s) && SessionsInv(s) && Run(p, s, es).Ran?
    ensures SessionsInv(Run(p, s, es).state)
    ensures AllLinked(s) && Polite(p, s, es) ==> AllLinked(Run(p, s, es).state)
    decreases |es|
  {
    if es != [] {
      StepKeepsSessions(p, s, es[0]);
      StepKeepsInv(p, s, es[0]);
      RunKeepsSessions(p, Step(p, s, es[0]).state, es[1..]);
    }
  }

  lemma {:induction false} InjectiveSize<K(!new), V(!new)>(m: map<K, V>)
    requires forall k, k' :: k in m && k' in m && m[k] == m[k'] ==> k == k'
    ensures |m.Values| == |m|
    decreases |m|
  {
    if m != map[] {
      var k :| k in m;
      var rest := m - {k};
      InjectiveSize(rest);
      assert m[k] !in rest.Values;
      assert forall k' :: k' in m ==> k' == k || (k' in rest && rest[k'] == m[k']);
      assert forall v :: v in rest.Values ==> exists k' :: k' in m && m[k'] == v;
      assert m.Values == rest.Values + {m[k]};
    }
  }

  /** The two dictionaries of a lobby list the same users and have the same size. */
  lemma LobbyDictionariesMatch(p: Patch, users: seq<UserState>, lobby: LobbyState)
    requires IdsAgree(p, users, lobby)
    ensures lobby.byId.Values == lobby.byIndex.Keys
    ensures |lobby.byId| == |lobby.byIndex|
  {
    forall u | u in lobby.byIndex ensures u in lobby.byId.Values {
      assert HasKey(lobby.byId, LobbyKey(p, u, UserAt(users, u).id), u);
    }
    InjectiveSize(lobby.byId);
  }
}
