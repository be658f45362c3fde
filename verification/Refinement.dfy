/** The repaired server is the roster: same answers, same packets to the same sessions, over every run. */
module Refinement {
  import opened Types
  import opened State
  import opened Handlers
  import opened Invariant
  import Slots
  import opened Registry
  import Rooms
  import opened Reachable
  import opened Closing
  import R = Roster

  // The roster's view of a user, of a room and of the whole server.
  function PlaceOf(user: UserState): R.Place {
    match user.domain
    case DomainRoom => R.InRoom(user.lobby, user.room)
    case DomainLobby => R.InLobby(user.lobby)
    case _ => R.AtLogin
  }

  function ClientOf(user: UserState): R.Client {
    R.Client(user.id, PlaceOf(user))
  }

  function ClientsOf(s: ServerState): map<int, R.Client> {
    map t | t in s.bySession :: ClientOf(s.User(s.bySession[t]))
  }

  function SessionsOf(users: seq<UserState>, members: seq<int>): seq<int> {
    seq(|members|, i requires 0 <= i < |members| => UserAt(users, members[i]).session)
  }

  function TableOf(users: seq<UserState>, room: RoomState): R.Table {
    R.Table(room.used, SessionsOf(users, room.members))
  }

  function LobbyRooms(users: seq<UserState>, lobby: LobbyState): seq<R.Table> {
    seq(|lobby.rooms|, r requires 0 <= r < |lobby.rooms| => TableOf(users, lobby.rooms[r]))
  }

  function RoomsOf(s: ServerState): seq<seq<R.Table>> {
    seq(|s.lobbies|, l requires 0 <= l < |s.lobbies| => LobbyRooms(s.users, s.lobbies[l]))
  }

  // The confirmed users that no session leads to.
  function StrayUsers(s: ServerState): set<int> {
    set u | 0 <= u < |s.users| && s.users[u].confirmed &&
            !(s.users[u].session in s.bySession && s.bySession[s.users[u].session] == u)
  }

  function StraysOf(s: ServerState): set<string> {
    set u | u in StrayUsers(s) :: s.User(u).id
  }

  function RosterOf(cfg: Config, s: ServerState): R.Roster {
    R.Roster(cfg, ClientsOf(s), StraysOf(s), RoomsOf(s))
  }

  ghost predicate LimitsAre(cfg: Config, s: ServerState) {
    && |s.users| == cfg.maxUsers && |s.lobbies| == cfg.lobbyCount
    && forall l :: 0 <= l < |s.lobbies| ==> LobbyLimitsAre(cfg, s.lobbies[l])
  }

  ghost predicate LobbyLimitsAre(cfg: Config, lobby: LobbyState) {
    && lobby.max == cfg.maxLobbyUsers && |lobby.rooms| == cfg.roomsPerLobby
    && forall r :: 0 <= r < |lobby.rooms| ==> lobby.rooms[r].max == cfg.maxRoomUsers
  }

  /** Everything the repaired server keeps. */
  ghost predicate Good(cfg: Config, s: ServerState) {
    && ValidConfig(cfg) && LimitsAre(cfg, s)
    && Inv(s) && Slots.SlotsInv(s) && IdsInv(REPAIRED, s) && SessionsInv(s)
  }

  // The step's outcome, seen as an answer of the roster.
  function Seen(cfg: Config, o: Outcome): R.Answer
    requires o.Done?
  {
    R.Answer(RosterOf(cfg, o.state), o.code, o.sent)
  }

  // Lookups agree.

  lemma ClientIsUser(cfg: Config, s: ServerState, session: int)
    requires Good(cfg, s)
    ensures session in ClientsOf(s) <==> session in s.bySession
    ensures session in s.bySession ==>
              var u := s.bySession[session];
              && s.GetUser(session) == Found(u) && 0 <= u < |s.users| && UserInv(s.users, s.free, u)
              && s.users[u].session == session && PlaceExists(s.users[u], s.lobbies)
              && ClientsOf(s)[session] == ClientOf(s.users[u])
  {
    if session in s.bySession {
      assert UserInv(s.users, s.free, s.bySession[session]) && PlaceExists(s.users[s.bySession[session]], s.lobbies);
    }
  }

  lemma StraysAreCounted(cfg: Config, s: ServerState)
    requires Good(cfg, s)
    ensures |StraysOf(s)| == |StrayUsers(s)|
  {
    var m: map<int, string> := map u | u in StrayUsers(s) :: s.users[u].id;
    assert m.Keys == StrayUsers(s);
    forall u, v | u in m && v in m && m[u] == m[v] ensures u == v {
      assert HasKey(s.byId, Text(s.users[u].id), u) && HasKey(s.byId, Text(s.users[v].id), v);
    }
    InjectiveSize(m);
    forall id | id in StraysOf(s) ensures id in m.Values {
      var u :| u in StrayUsers(s) && s.User(u).id == id;
      assert m[u] == id;
    }
    assert m.Values == StraysOf(s);
  }

  lemma LinkedAreCounted(cfg: Config, s: ServerState)
    requires Good(cfg, s)
    ensures |ConfirmedUsers(s.users) - StrayUsers(s)| == |ClientsOf(s)|
  {
    var m: map<int, int> := map t | t in s.bySession :: s.bySession[t];
    var linked := ConfirmedUsers(s.users) - StrayUsers(s);
    forall u | u in linked ensures u in m.Values {
      assert m[s.users[u].session] == u;
    }
    forall t | t in m ensures m[t] in linked && s.users[m[t]].session == t {
      ClientIsUser(cfg, s, t);
    }
    assert m.Values == linked;
    InjectiveSize(m);
    assert ClientsOf(s).Keys == m.Keys;
  }

  lemma ClientsAreConfirmed(cfg: Config, s: ServerState)
    requires Good(cfg, s)
    ensures |s.free| + |ClientsOf(s)| + |StraysOf(s)| == cfg.maxUsers
  {
    forall u | 0 <= u < |s.users| ensures s.users[u].confirmed <==> u !in s.free {
      assert UserInv(s.users, s.free, u);
    }
    RangeSize(|s.users|, s.free, ConfirmedUsers(s.users));
    StraysAreCounted(cfg, s);
    LinkedAreCounted(cfg, s);
    assert StrayUsers(s) <= ConfirmedUsers(s.users);
  }

  lemma PopulationIsMembership(cfg: Config, s: ServerState, l: int)
    requires Good(cfg, s) && 0 <= l < |s.lobbies|
    ensures RosterOf(cfg, s).Population(l) == |s.lobbies[l].byIndex|
  {
    var clients := ClientsOf(s);
    var there := set t | t in clients && clients[t].place != R.AtLogin && clients[t].place.lobby == l;
    var m := map t | t in there :: s.bySession[t];
    forall u | u in s.lobbies[l].byIndex ensures u in m.Values {
      MemberIsClient(cfg, s, l, u);
      assert m[s.users[u].session] == u;
    }
    forall t | t in m ensures m[t] in s.lobbies[l].byIndex && s.users[m[t]].session == t {
      ClientIsMember(cfg, s, l, t);
    }
    assert m.Values == s.lobbies[l].byIndex.Keys;
    InjectiveSize(m);
    assert m.Keys == there;
  }

  lemma MemberIsClient(cfg: Config, s: ServerState, l: int, u: int)
    requires Good(cfg, s) && 0 <= l < |s.lobbies| && u in s.lobbies[l].byIndex
    ensures 0 <= u < |s.users| && HasKey(s.bySession, s.users[u].session, u)
    ensures var t := s.users[u].session;
            t in ClientsOf(s) && ClientsOf(s)[t].place != R.AtLogin && ClientsOf(s)[t].place.lobby == l
  {
    assert MembersAgree(s.users, s.lobbies[l], l) && UserInv(s.users, s.free, u) && Linked(s, u);
  }

  lemma ClientIsMember(cfg: Config, s: ServerState, l: int, t: int)
    requires Good(cfg, s) && 0 <= l < |s.lobbies| && t in ClientsOf(s)
    requires ClientsOf(s)[t].place != R.AtLogin && ClientsOf(s)[t].place.lobby == l
    ensures 0 <= s.bySession[t] < |s.users| && s.bySession[t] in s.lobbies[l].byIndex
    ensures s.users[s.bySession[t]].session == t
  {
    ClientIsUser(cfg, s, t);
    assert MembersAgree(s.users, s.lobbies[l], l);
  }

  lemma IdsAreTexts(cfg: Config, s: ServerState, id: string)
    requires Good(cfg, s)
    ensures RosterOf(cfg, s).HasId(id) <==> Text(id) in s.byId
  {
    if Text(id) in s.byId {
      var u := s.byId[Text(id)];
      if u in StrayUsers(s) {
        assert s.User(u).id in StraysOf(s);
      } else {
        ClientIsUser(cfg, s, s.users[u].session);
        assert s.users[u].session in ClientsOf(s) && ClientsOf(s)[s.users[u].session].id == id;
      }
    }
    forall t | t in ClientsOf(s) && ClientsOf(s)[t].id == id ensures Text(id) in s.byId {
      ClientIsUser(cfg, s, t);
      assert HasKey(s.byId, Text(s.users[s.bySession[t]].id), s.bySession[t]);
    }
    if id in StraysOf(s) {
      var u :| u in StrayUsers(s) && s.User(u).id == id;
      assert HasKey(s.byId, Text(s.users[u].id), u);
    }
  }

  // Updates agree.

  lemma OneClientChanges(s: ServerState, s': ServerState, session: int, u: int)
    requires Inv(s) && SessionsInv(s) && HasKey(s.bySession, session, u) && s'.bySession == s.bySession
    requires OnlyUser(s, s', u)
    ensures ClientsOf(s') == ClientsOf(s)[session := ClientOf(s'.users[u])]
  {
    forall t | t in s.bySession && t != session ensures s'.User(s.bySession[t]) == s.User(s.bySession[t]) {
      assert s.users[s.bySession[t]].session == t && s.users[u].session == session;
    }
    assert ClientsOf(s').Keys == (ClientsOf(s)[session := ClientOf(s'.users[u])]).Keys;
  }

  // Identities decide who is a stray.
  lemma SameStrays(s: ServerState, s': ServerState)
    requires SameIdentities(s, s')
    ensures StraysOf(s') == StraysOf(s)
  {
    forall u | 0 <= u < |s.users| ensures s'.User(u).id == s.User(u).id && (u in StrayUsers(s') <==> u in StrayUsers(s)) {
      assert SameIdentity(s.users[u], s'.users[u]);
    }
    assert StrayUsers(s') == StrayUsers(s);
  }

  lemma SameRooms(s: ServerState, s': ServerState)
    requires SameUsers(s.users, s'.users) && |s'.lobbies| == |s.lobbies|
    requires forall l :: 0 <= l < |s.lobbies| ==> s'.lobbies[l].rooms == s.lobbies[l].rooms
    ensures RoomsOf(s') == RoomsOf(s)
  {
    forall l | 0 <= l < |s.lobbies| ensures LobbyRooms(s'.users, s'.lobbies[l]) == LobbyRooms(s.users, s.lobbies[l]) {
      forall r | 0 <= r < |s.lobbies[l].rooms|
        ensures TableOf(s'.users, s.lobbies[l].rooms[r]) == TableOf(s.users, s.lobbies[l].rooms[r])
      {
        SameSessions(s.users, s'.users, s.lobbies[l].rooms[r].members);
      }
    }
  }

  lemma SameSessions(users: seq<UserState>, users': seq<UserState>, members: seq<int>)
    requires SameUsers(users, users')
    ensures SessionsOf(users', members) == SessionsOf(users, members)
  {
    forall i | 0 <= i < |members| ensures UserAt(users', members[i]).session == UserAt(users, members[i]).session {
      assert 0 <= members[i] < |users| ==> SameIdentity(users[members[i]], users'[members[i]]);
    }
  }

  lemma OneRoomChanges(s: ServerState, s': ServerState, l: int, r: int, room: RoomState)
    requires SameUsers(s.users, s'.users)
    requires 0 <= l < |s.lobbies| && s.lobbies[l].HasRoom(r) && s'.lobbies == s.WithRoom(l, r, room).lobbies
    ensures RoomsOf(s') == RoomsOf(s)[l := RoomsOf(s)[l][r := TableOf(s.users, room)]]
  {
    SameRooms(s.WithRoom(l, r, room), s');
    SameSessions(s.users, s'.users, room.members);
    var a, b := s.lobbies[l], s.WithRoom(l, r, room).lobbies[l];
    assert LobbyRooms(s.users, b) == LobbyRooms(s.users, a)[r := TableOf(s.users, room)];
  }

  // Names of members and names of sessions correspond one to one, so lists can be edited under either name.

  ghost predicate OwnSessions(s: ServerState, members: seq<int>) {
    forall i :: 0 <= i < |members| ==>
      0 <= members[i] < |s.users| && Linked(s, members[i]) && s.users[members[i]].index == members[i]
  }

  lemma MembersOwnSessions(s: ServerState, l: int, r: int)
    requires Inv(s) && SessionsInv(s) && 0 <= l < |s.lobbies| && s.lobbies[l].HasRoom(r)
    ensures OwnSessions(s, s.lobbies[l].rooms[r].members)
  {
    var members := s.lobbies[l].rooms[r].members;
    assert MembersAgree(s.users, s.lobbies[l], l) && RoomAgrees(s.users, members, l, r);
    forall i | 0 <= i < |members|
      ensures 0 <= members[i] < |s.users| && Linked(s, members[i]) && s.users[members[i]].index == members[i]
    {
      assert members[i] in members && UserInv(s.users, s.free, members[i]);
    }
  }

  lemma SameSessionSameUser(s: ServerState, u: int, v: int)
    requires 0 <= u < |s.users| && 0 <= v < |s.users| && Linked(s, u) && Linked(s, v)
    ensures s.users[u].session == s.users[v].session <==> u == v
  {
  }

  lemma {:induction false} AddressedAreOthers(s: ServerState, members: seq<int>, u: int, packet: Packet)
    requires OwnSessions(s, members) && 0 <= u < |s.users| && Linked(s, u)
    ensures SendToAll(s.users, members, u, packet) ==
            R.Tell(R.Others(SessionsOf(s.users, members), s.users[u].session), packet)
  {
    if members != [] {
      var rest := members[1..];
      AddressedAreOthers(s, rest, u, packet);
      SameSessionSameUser(s, members[0], u);
      assert SessionsOf(s.users, members)[1..] == SessionsOf(s.users, rest);
    }
  }

  lemma {:induction false} AllAreTold(s: ServerState, members: seq<int>, pass: int, packet: Packet)
    requires OwnSessions(s, members) && pass !in members
    ensures SendToAll(s.users, members, pass, packet) == R.Tell(SessionsOf(s.users, members), packet)
  {
    if members != [] {
      AllAreTold(s, members[1..], pass, packet);
      assert SessionsOf(s.users, members)[1..] == SessionsOf(s.users, members[1..]);
    }
  }

  lemma {:induction false} NobodyToDrop(s: seq<int>, x: int)
    requires x !in s
    ensures R.Others(s, x) == s
  {
    if s != [] {
      NobodyToDrop(s[1..], x);
    }
  }

  lemma SessionsByHead(users: seq<UserState>, head: int, rest: seq<int>)
    ensures SessionsOf(users, [head] + rest) == [UserAt(users, head).session] + SessionsOf(users, rest)
  {
  }

  lemma {:induction false} RemainingAreOthers(s: ServerState, members: seq<int>, u: int)
    requires NoDup(members) && OwnSessions(s, members) && 0 <= u < |s.users| && Linked(s, u)
    ensures SessionsOf(s.users, Remaining(members, u)) == R.Others(SessionsOf(s.users, members), s.users[u].session)
  {
    if members != [] {
      var rest := members[1..];
      SameSessionSameUser(s, members[0], u);
      assert SessionsOf(s.users, members)[1..] == SessionsOf(s.users, rest);
      RemainingByHead(members, u);
      if members[0] == u {
        forall i | 0 <= i < |rest| ensures SessionsOf(s.users, rest)[i] != s.users[u].session {
          SameSessionSameUser(s, rest[i], u);
        }
        NobodyToDrop(SessionsOf(s.users, rest), s.users[u].session);
      } else {
        RemainingAreOthers(s, rest, u);
        SessionsByHead(s.users, members[0], Remaining(rest, u));
      }
    }
  }

  // Handler by handler.

  lemma LoginRefines(cfg: Config, s: ServerState, session: int, id: string, buffer: int)
    requires Good(cfg, s)
    ensures R.Login(RosterOf(cfg, s), session, id) == Seen(cfg, Login(REPAIRED, s, session, id, buffer))
  {
    var (s', code) := s.AddUser(REPAIRED, session, id, buffer);
    IdsAreTexts(cfg, s, id);
    ClientsAreConfirmed(cfg, s);
    if code == NONE {
      assert UserInv(s.users, s.free, s.free[0]);
      LoginAddsClient(cfg, s, session, id, buffer);
      LoginAddsStray(cfg, s, session, id, buffer);
      NewcomerIsSeatedNowhere(s, s', s.free[0]);
    }
  }

  lemma LoginAddsClient(cfg: Config, s: ServerState, session: int, id: string, buffer: int)
    requires Good(cfg, s) && s.AddUser(REPAIRED, session, id, buffer).1 == NONE
    ensures ClientsOf(s.AddUser(REPAIRED, session, id, buffer).0) ==
            if session in ClientsOf(s) then ClientsOf(s) else ClientsOf(s)[session := R.Client(id, R.AtLogin)]
  {
    var s' := s.AddUser(REPAIRED, session, id, buffer).0;
    var u := s.free[0];
    assert UserInv(s.users, s.free, u);
    forall t | t in s.bySession ensures s'.User(s'.bySession[t]) == s.User(s.bySession[t]) {
      ClientIsUser(cfg, s, t);
    }
    assert ClientsOf(s').Keys == s'.bySession.Keys;
    assert ClientsOf(s)[session := R.Client(id, R.AtLogin)].Keys == s.bySession.Keys + {session};
  }

  lemma LoginAddsStray(cfg: Config, s: ServerState, session: int, id: string, buffer: int)
    requires Good(cfg, s) && s.AddUser(REPAIRED, session, id, buffer).1 == NONE
    ensures StraysOf(s.AddUser(REPAIRED, session, id, buffer).0) ==
            if session in ClientsOf(s) then StraysOf(s) + {id} else StraysOf(s)
  {
    var s' := s.AddUser(REPAIRED, session, id, buffer).0;
    var u := s.free[0];
    assert UserInv(s.users, s.free, u);
    forall v | 0 <= v < |s.users| && v != u
      ensures s'.User(v) == s.User(v) && (v in StrayUsers(s') <==> v in StrayUsers(s))
    {
    }
    assert u !in StrayUsers(s) && s'.User(u).id == id;
    assert StrayUsers(s') == if session in s.bySession then StrayUsers(s) + {u} else StrayUsers(s);
    forall x | x in StraysOf(s) ensures x in StraysOf(s') {
      var v :| v in StrayUsers(s) && s.User(v).id == x;
      assert v in StrayUsers(s') && s'.User(v).id == x;
    }
    forall x | x in StraysOf(s') ensures x in StraysOf(s) || (session in s.bySession && x == id) {
      var v :| v in StrayUsers(s') && s'.User(v).id == x;
      assert v != u ==> v in StrayUsers(s) && s.User(v).id == x;
    }
    if session in s.bySession {
      assert u in StrayUsers(s') && s'.User(u).id == id;
    }
  }

  // A user listed in no room may change without any room looking different.
  lemma NewcomerIsSeatedNowhere(s: ServerState, s': ServerState, u: int)
    requires Inv(s) && OnlyUser(s, s', u) && !s.users[u].Placed() && s'.lobbies == s.lobbies
    ensures RoomsOf(s') == RoomsOf(s)
  {
    NobodyListsTheIdle(s, u);
    forall l | 0 <= l < |s.lobbies| ensures LobbyRooms(s'.users, s'.lobbies[l]) == LobbyRooms(s.users, s.lobbies[l]) {
      assert !ListedIn(s.lobbies[l], u);
      forall r | 0 <= r < |s.lobbies[l].rooms|
        ensures TableOf(s'.users, s.lobbies[l].rooms[r]) == TableOf(s.users, s.lobbies[l].rooms[r])
      {
        assert u !in s.lobbies[l].rooms[r].members;
      }
    }
  }

  lemma LobbyListRefines(cfg: Config, s: ServerState, session: int)
    requires Good(cfg, s)
    ensures LobbyList(REPAIRED, s, session).Done?
    ensures R.LobbyList(RosterOf(cfg, s), session) == Seen(cfg, LobbyList(REPAIRED, s, session))
  {
    ClientIsUser(cfg, s, session);
    var r := RosterOf(cfg, s);
    forall l | 0 <= l < |s.lobbies|
      ensures LobbyInfos(REPAIRED, s.lobbies)[l] == LobbyInfo(l, r.Population(l), cfg.maxLobbyUsers)
    {
      PopulationIsMembership(cfg, s, l);
      assert LobbyLimitsAre(cfg, s.lobbies[l]) && LobbyShape(s.lobbies[l]);
      ShortIsExact(|s.lobbies[l].byIndex|);
    }
    assert LobbyInfos(REPAIRED, s.lobbies) == seq(|r.rooms|, l => LobbyInfo(l, r.Population(l), cfg.maxLobbyUsers));
  }

  lemma LobbyEnterRefines(cfg: Config, s: ServerState, session: int, lobbyId: int)
    requires Good(cfg, s)
    ensures LobbyEnter(REPAIRED, s, session, lobbyId).Done?
    ensures R.LobbyEnter(RosterOf(cfg, s), session, lobbyId) == Seen(cfg, LobbyEnter(REPAIRED, s, session, lobbyId))
  {
    Slots.LobbyEnterKeepsSlots(REPAIRED, s, session, lobbyId);
    ClientIsUser(cfg, s, session);
    var o := LobbyEnter(REPAIRED, s, session, lobbyId);
    if session in s.bySession && s.User(s.bySession[session]).domain == DomainLogin && s.HasLobby(lobbyId) {
      var u := s.bySession[session];
      PopulationIsMembership(cfg, s, lobbyId);
      assert LobbyLimitsAre(cfg, s.lobbies[lobbyId]);
      ShortIsExact(|s.lobbies[lobbyId].rooms|);
      NobodyListsTheIdle(s, u);
      assert !ListedIn(s.lobbies[lobbyId], u);
      if o.code == NONE {
        LobbyIsEntered(cfg, s, session, lobbyId, u);
      }
    }
  }

  lemma LobbyIsEntered(cfg: Config, s: ServerState, session: int, lobbyId: int, u: int)
    requires Good(cfg, s) && s.GetUser(session) == Found(u)
    requires LobbyEnter(REPAIRED, s, session, lobbyId).Done? && LobbyEnter(REPAIRED, s, session, lobbyId).code == NONE
    ensures RosterOf(cfg, LobbyEnter(REPAIRED, s, session, lobbyId).state) ==
            RosterOf(cfg, s).Move(session, R.InLobby(lobbyId))
  {
    var s' := LobbyEnter(REPAIRED, s, session, lobbyId).state;
    ClientIsUser(cfg, s, session);
    LobbyEnterKeepsIdentities(REPAIRED, s, session, lobbyId);
    OneClientChanges(s, s', session, u);
    SameStrays(s, s');
    SameRooms(s, s');
  }

  lemma LobbyLeaveRefines(cfg: Config, s: ServerState, session: int)
    requires Good(cfg, s)
    ensures LobbyLeave(REPAIRED, s, session).Done?
    ensures R.LobbyLeave(RosterOf(cfg, s), session) == Seen(cfg, LobbyLeave(REPAIRED, s, session))
  {
    ClientIsUser(cfg, s, session);
    if session in s.bySession && s.User(s.bySession[session]).domain == DomainLobby {
      LobbyIsLeft(cfg, s, session, s.bySession[session]);
    }
  }

  lemma LeavingLobby(p: Patch, s: ServerState, u: int)
    requires Inv(s) && 0 <= u < |s.users| && s.users[u].domain == DomainLobby
    ensures s.HasLobby(s.users[u].lobby) && s.users[u].index == u
    ensures var (s', code) := s.LeaveLobby(p, s.users[u].lobby, u);
            && code == NONE && s'.users == s.users[u := s.users[u].LeftLobby()] && s'.bySession == s.bySession
            && |s'.lobbies| == |s.lobbies| && forall l :: 0 <= l < |s.lobbies| ==> s'.lobbies[l].rooms == s.lobbies[l].rooms
  {
    PlacedUserIsListed(s, u);
    assert LobbyShape(s.lobbies[s.users[u].lobby]);
  }

  lemma LobbyIsLeft(cfg: Config, s: ServerState, session: int, u: int)
    requires Good(cfg, s) && s.GetUser(session) == Found(u) && s.User(u).domain == DomainLobby
    ensures var o := LobbyLeave(REPAIRED, s, session);
            && o.Done? && o.code == NONE && o.sent == [Sent(session, LobbyLeaveRes(NONE))]
            && RosterOf(cfg, o.state) == RosterOf(cfg, s).Move(session, R.AtLogin)
  {
    var o := LobbyLeave(REPAIRED, s, session);
    ClientIsUser(cfg, s, session);
    LeavingLobby(REPAIRED, s, u);
    LeaveLobbyKeepsIdentities(REPAIRED, s, s.users[u].lobby, u);
    OneClientChanges(s, o.state, session, u);
    SameStrays(s, o.state);
    SameRooms(s, o.state);
  }

  // Both sides look for the same room.
  lemma {:induction false} ClosedIsUnused(cfg: Config, s: ServerState, l: int, i: nat)
    requires Good(cfg, s) && 0 <= l < |s.lobbies| && i <= |s.lobbies[l].rooms|
    ensures R.FirstClosed(RoomsOf(s)[l], i) == s.lobbies[l].AllocRoom(i)
    decreases |s.lobbies[l].rooms| - i
  {
    if i < |s.lobbies[l].rooms| {
      TableIsRoom(cfg, s, l, i);
      ClosedIsUnused(cfg, s, l, i + 1);
    }
  }

  lemma TableIsRoom(cfg: Config, s: ServerState, l: int, r: int)
    requires Good(cfg, s) && 0 <= l < |s.lobbies| && s.lobbies[l].HasRoom(r)
    ensures RosterOf(cfg, s).HasRoom(l, r)
    ensures RoomsOf(s)[l][r] == TableOf(s.users, s.lobbies[l].rooms[r])
    ensures s.lobbies[l].rooms[r].max == cfg.maxRoomUsers && RoomShape(s.lobbies[l].rooms[r])
    ensures s.lobbies[l].rooms[r].index == r
  {
    assert LobbyShape(s.lobbies[l]) && RoomShape(s.lobbies[l].rooms[r]) && LobbyLimitsAre(cfg, s.lobbies[l]);
  }

  // What the roster answers to a request of user u, given the room the server chooses for it.
  ghost predicate SeatAgrees(cfg: Config, s: ServerState, session: int, u: int, choice: RoomChoice, a: R.Answer)
    requires 0 <= u < |s.users| && session in ClientsOf(s) && 0 <= s.users[u].lobby < |s.lobbies|
  {
    match choice
    case Refused(code) => a == R.Answer(RosterOf(cfg, s), code, [Sent(session, RoomEnterRes(code))])
    case Chosen(r, room) =>
      RosterOf(cfg, s).HasRoom(s.users[u].lobby, r) &&
      a == if room.used then R.TakeSeat(RosterOf(cfg, s), session, s.users[u].lobby, r)
           else R.Answer(RosterOf(cfg, s), ROOM_ENTER_NOT_CREATED, [Sent(session, RoomEnterRes(ROOM_ENTER_NOT_CREATED))])
  }

  lemma SameSeat(cfg: Config, s: ServerState, session: int, u: int, isCreate: bool, roomIndex: int, title: string)
    requires Good(cfg, s) && 0 <= u < |s.users| && s.users[u].domain == DomainLobby && s.HasLobby(s.users[u].lobby)
    requires HasKey(ClientsOf(s), session, ClientOf(s.users[u]))
    ensures SeatAgrees(cfg, s, session, u, ChooseRoom(s.lobbies[s.users[u].lobby], isCreate, roomIndex, title),
                       R.RoomEnter(RosterOf(cfg, s), session, isCreate, roomIndex))
  {
    var l := s.users[u].lobby;
    var choice := ChooseRoom(s.lobbies[l], isCreate, roomIndex, title);
    if isCreate {
      ClosedIsUnused(cfg, s, l, 0);
    }
    if s.lobbies[l].HasRoom(roomIndex) {
      TableIsRoom(cfg, s, l, roomIndex);
    }
    if choice.Chosen? {
      TableIsRoom(cfg, s, l, choice.room);
    }
  }

  lemma RoomEnterRefines(cfg: Config, s: ServerState, session: int, isCreate: bool, roomIndex: int, title: string)
    requires Good(cfg, s)
    ensures RoomEnter(s, session, isCreate, roomIndex, title).Done?
    ensures R.RoomEnter(RosterOf(cfg, s), session, isCreate, roomIndex) ==
            Seen(cfg, RoomEnter(s, session, isCreate, roomIndex, title))
  {
    ClientIsUser(cfg, s, session);
    if session in s.bySession && s.User(s.bySession[session]).domain == DomainLobby {
      var u := s.bySession[session];
      var l := s.users[u].lobby;
      SameSeat(cfg, s, session, u, isCreate, roomIndex, title);
      var choice := ChooseRoom(s.lobbies[l], isCreate, roomIndex, title);
      if choice.Chosen? {
        TableIsRoom(cfg, s, l, choice.room);
        if choice.state.used {
          SeatingRefines(cfg, s, session, u, choice.room, choice.state);
        } else {
          SameRoomSameState(s, l, choice.room);
        }
      }
    }
  }

  // User u may be seated in room r of its lobby, the room having been made `room`.
  ghost predicate MaySit(cfg: Config, s: ServerState, session: int, u: int, r: int, room: RoomState) {
    && Good(cfg, s) && HasKey(s.bySession, session, u) && 0 <= u < |s.users| && s.users[u].domain == DomainLobby
    && s.users[u].session == session && s.users[u].index == u
    && 0 <= s.users[u].lobby < |s.lobbies| && s.lobbies[s.users[u].lobby].HasRoom(r)
    && room.members == s.lobbies[s.users[u].lobby].rooms[r].members
    && room.index == r && room.used && room.max == cfg.maxRoomUsers
    && HasKey(ClientsOf(s), session, ClientOf(s.users[u])) && RosterOf(cfg, s).HasRoom(s.users[u].lobby, r)
    && RoomsOf(s)[s.users[u].lobby][r].sessions == SessionsOf(s.users, room.members)
  }

  lemma SeatingRefines(cfg: Config, s: ServerState, session: int, u: int, r: int, room: RoomState)
    requires MaySit(cfg, s, session, u, r, room)
    ensures SeatInRoom(s, session, u, s.users[u].lobby, r, room).Done?
    ensures R.TakeSeat(RosterOf(cfg, s), session, s.users[u].lobby, r) ==
            Seen(cfg, SeatInRoom(s, session, u, s.users[u].lobby, r, room))
  {
    var l := s.users[u].lobby;
    if room.Enter(u).1 == NONE {
      SeatedRoster(cfg, s, session, u, r, room);
      SeatingKeepsUsers(s, u, r, room);
      NewcomerIsAnnounced(s, AfterSeating(s, u, r, room), l, r, u, NewUserNtf(s.users[u].id));
    } else {
      OpenedRoster(cfg, s, l, r, room);
    }
  }

  // The state when user u has taken a seat in room r of its lobby, the room having been made `room`.
  function AfterSeating(s: ServerState, u: int, r: int, room: RoomState): ServerState
    requires 0 <= u < |s.users| && 0 <= s.users[u].lobby < |s.lobbies| && s.lobbies[s.users[u].lobby].HasRoom(r)
  {
    var l := s.users[u].lobby;
    s.WithRoom(l, r, room.Enter(u).0).WithUser(u, s.users[u].EnteredRoom(l, r))
  }

  lemma SeatingKeepsUsers(s: ServerState, u: int, r: int, room: RoomState)
    requires 0 <= u < |s.users| && 0 <= s.users[u].lobby < |s.lobbies| && s.lobbies[s.users[u].lobby].HasRoom(r)
    ensures var s' := AfterSeating(s, u, r, room);
            && OnlyUser(s, s', u) && SameIdentities(s, s')
            && s'.users[u] == s.users[u].EnteredRoom(s.users[u].lobby, r)
            && s'.lobbies == s.WithRoom(s.users[u].lobby, r, room.Enter(u).0).lobbies
  {
  }

  lemma SeatedRoster(cfg: Config, s: ServerState, session: int, u: int, r: int, room: RoomState)
    requires MaySit(cfg, s, session, u, r, room) && room.Enter(u).1 == NONE
    ensures RosterOf(cfg, AfterSeating(s, u, r, room)) ==
            R.TakeSeat(RosterOf(cfg, s), session, s.users[u].lobby, r).roster
  {
    var l := s.users[u].lobby;
    var s' := AfterSeating(s, u, r, room);
    SeatingKeepsUsers(s, u, r, room);
    OneClientChanges(s, s', session, u);
    SameStrays(s, s');
    OneRoomChanges(s, s', l, r, room.Enter(u).0);
    assert SessionsOf(s.users, room.members + [u]) == SessionsOf(s.users, room.members) + [session];
  }

  // A room too full to enter may at most have been opened.
  lemma OpenedRoster(cfg: Config, s: ServerState, l: int, r: int, room: RoomState)
    requires 0 <= l < |s.lobbies| && s.lobbies[l].HasRoom(r) && RosterOf(cfg, s).HasRoom(l, r)
    ensures RosterOf(cfg, s.WithRoom(l, r, room)) == RosterOf(cfg, s).Lay(l, r, TableOf(s.users, room))
  {
    var s' := s.WithRoom(l, r, room);
    assert s'.users == s.users && s'.bySession == s.bySession;
    assert forall t :: t in s.bySession ==> s'.User(s'.bySession[t]) == s.User(s.bySession[t]);
    assert ClientsOf(s').Keys == ClientsOf(s).Keys;
    SameStrays(s, s');
    OneRoomChanges(s, s', l, r, room);
  }

  // The newcomer is at the end of the list and passed over, so exactly the earlier members are told.
  lemma NewcomerIsAnnounced(s: ServerState, s': ServerState, l: int, r: int, u: int, packet: Packet)
    requires Inv(s) && SessionsInv(s) && SameUsers(s.users, s'.users)
    requires 0 <= l < |s.lobbies| && s.lobbies[l].HasRoom(r)
    requires 0 <= u < |s.users| && s.users[u].index == u && s.users[u].domain != DomainRoom
    ensures SendToAll(s'.users, s.lobbies[l].rooms[r].members + [u], u, packet) ==
            R.Tell(SessionsOf(s.users, s.lobbies[l].rooms[r].members), packet)
  {
    var members := s.lobbies[l].rooms[r].members;
    assert MembersAgree(s.users, s.lobbies[l], l) && RoomAgrees(s.users, members, l, r);
    MembersOwnSessions(s, l, r);
    SameUsersHearTheSame(s.users, s'.users, members + [u], u, packet);
    PassingOverTheLast(s.users, members, u, packet);
    AllAreTold(s, members, u, packet);
  }

  lemma {:induction false} SameUsersHearTheSame(users: seq<UserState>, users': seq<UserState>, members: seq<int>,
                                                pass: int, packet: Packet)
    requires SameUsers(users, users')
    ensures SendToAll(users', members, pass, packet) == SendToAll(users, members, pass, packet)
  {
    if members != [] {
      assert 0 <= members[0] < |users| ==> SameIdentity(users[members[0]], users'[members[0]]);
      SameUsersHearTheSame(users, users', members[1..], pass, packet);
    }
  }

  lemma {:induction false} PassingOverTheLast(users: seq<UserState>, members: seq<int>, u: int, packet: Packet)
    requires UserAt(users, u).index == u
    ensures SendToAll(users, members + [u], u, packet) == SendToAll(users, members, u, packet)
  {
    if members == [] {
      assert ([u])[1..] == [];
    } else {
      PassingOverTheLast(users, members[1..], u, packet);
      assert (members + [u])[1..] == members[1..] + [u];
    }
  }

  // Leaving a room, on its own or as the start of a close.
  lemma DepartureRefines(cfg: Config, s: ServerState, u: int)
    requires Good(cfg, s) && 0 <= u < |s.users| && s.users[u].domain == DomainRoom && s.users[u].confirmed
    ensures CarriesRoom(s, u) && RosterOf(cfg, s).HasRoom(s.users[u].lobby, s.users[u].room)
    ensures var (l, r) := (s.users[u].lobby, s.users[u].room);
            var room, id := s.lobbies[l].rooms[r], s.users[u].id;
            var table := R.Vacate(RoomsOf(s)[l][r], s.users[u].session);
            && room.Leave(u).1 == NONE
            && TableOf(s.users, room.Leave(u).0) == table
            && NotifyLeave(s.users, room.Leave(u).0, id) == R.Tell(table.sessions, LeaveUserNtf(id))
            && Deliver(s.users, Remaining(room.members, u), LeaveUserNtf(id)) == R.Tell(table.sessions, LeaveUserNtf(id))
  {
    PlacedUserIsListed(s, u);
    var l, r := s.users[u].lobby, s.users[u].room;
    var room := s.lobbies[l].rooms[r];
    TableIsRoom(cfg, s, l, r);
    MembersOwnSessions(s, l, r);
    MembersOwnIndices(s, l, r);
    RemainingAreOthers(s, room.members, u);
    NotifyLeaveDelivers(s.users, room, u, s.users[u].id);
    LeftTable(s.users, room, u);
  }

  lemma LeftTable(users: seq<UserState>, room: RoomState, u: int)
    requires RoomShape(room) && u in room.members
    ensures var rest := SessionsOf(users, Remaining(room.members, u));
            TableOf(users, room.Leave(u).0) == R.Table(rest != [], rest)
  {
  }

  lemma RoomLeaveRefines(cfg: Config, s: ServerState, session: int)
    requires Good(cfg, s)
    ensures RoomLeave(s, session).Done?
    ensures R.RoomLeave(RosterOf(cfg, s), session) == Seen(cfg, RoomLeave(s, session))
  {
    ClientIsUser(cfg, s, session);
    if session in s.bySession && s.User(s.bySession[session]).domain == DomainRoom {
      RosterDeparts(cfg, s, session, s.bySession[session]);
      DepartedRoster(cfg, s, session, s.bySession[session]);
    }
  }

  // What the roster makes of a room leave.
  lemma RosterDeparts(cfg: Config, s: ServerState, session: int, u: int)
    requires Good(cfg, s) && s.GetUser(session) == Found(u) && s.User(u).domain == DomainRoom
    ensures CarriesRoom(s, u) && RosterOf(cfg, s).HasRoom(s.users[u].lobby, s.users[u].room)
    ensures var (l, r) := (s.users[u].lobby, s.users[u].room);
            var room := s.lobbies[l].rooms[r];
            && room.Leave(u).1 == NONE
            && R.RoomLeave(RosterOf(cfg, s), session) ==
               R.Answer(RosterOf(cfg, s).Lay(l, r, TableOf(s.users, room.Leave(u).0)).Move(session, R.InLobby(l)), NONE,
                        NotifyLeave(s.users, room.Leave(u).0, s.users[u].id) + [Sent(session, RoomEnterRes(NONE))])
  {
    ClientIsUser(cfg, s, session);
    DepartureRefines(cfg, s, u);
  }

  lemma LeavingSeat(s: ServerState, session: int, u: int)
    requires Inv(s) && s.GetUser(session) == Found(u) && s.User(u).domain == DomainRoom && CarriesRoom(s, u)
    requires s.lobbies[s.users[u].lobby].rooms[s.users[u].room].Leave(u).1 == NONE
    ensures var (l, r) := (s.users[u].lobby, s.users[u].room);
            var room' := s.lobbies[l].rooms[r].Leave(u).0;
            var s' := s.WithRoom(l, r, room').WithUser(u, s.users[u].EnteredLobby(l));
            RoomLeave(s, session) ==
            Done(s', NONE, NotifyLeave(s'.users, room', s.users[u].id) + [Sent(session, RoomEnterRes(NONE))])
  {
    assert UserInv(s.users, s.free, u);
  }

  // What a room leave does to the roster, and what it sends.
  lemma DepartedRoster(cfg: Config, s: ServerState, session: int, u: int)
    requires Good(cfg, s) && s.GetUser(session) == Found(u) && s.User(u).domain == DomainRoom
    requires CarriesRoom(s, u) && RosterOf(cfg, s).HasRoom(s.users[u].lobby, s.users[u].room)
    requires s.lobbies[s.users[u].lobby].rooms[s.users[u].room].Leave(u).1 == NONE
    ensures var (l, r) := (s.users[u].lobby, s.users[u].room);
            var room' := s.lobbies[l].rooms[r].Leave(u).0;
            && RoomLeave(s, session).Done?
            && Seen(cfg, RoomLeave(s, session)) ==
               R.Answer(RosterOf(cfg, s).Lay(l, r, TableOf(s.users, room')).Move(session, R.InLobby(l)), NONE,
                        NotifyLeave(s.users, room', s.users[u].id) + [Sent(session, RoomEnterRes(NONE))])
  {
    var o := RoomLeave(s, session);
    var l, r := s.users[u].lobby, s.users[u].room;
    var room' := s.lobbies[l].rooms[r].Leave(u).0;
    ClientIsUser(cfg, s, session);
    LeavingSeat(s, session, u);
    RoomLeaveKeepsIdentities(s, session);
    SameUsersHearTheSame(s.users, o.state.users, room'.members, -1, LeaveUserNtf(s.users[u].id));
    OneClientChanges(s, o.state, session, u);
    SameStrays(s, o.state);
    OneRoomChanges(s, o.state, l, r, room');
  }

  lemma RoomChatRefines(cfg: Config, s: ServerState, session: int, msg: string)
    requires Good(cfg, s)
    ensures RoomChat(REPAIRED, s, session, msg).Done?
    ensures R.RoomChat(RosterOf(cfg, s), session, msg) == Seen(cfg, RoomChat(REPAIRED, s, session, msg))
  {
    ClientIsUser(cfg, s, session);
    if session in s.bySession && s.User(s.bySession[session]).domain == DomainRoom {
      var u := s.bySession[session];
      TableIsRoom(cfg, s, s.users[u].lobby, s.users[u].room);
      ChatIsToldToOthers(cfg, s, u, ChatNtf(s.users[u].id, msg));
    }
  }

  lemma ChatIsToldToOthers(cfg: Config, s: ServerState, u: int, packet: Packet)
    requires Good(cfg, s) && 0 <= u < |s.users| && Linked(s, u) && CarriesRoom(s, u)
    ensures var (l, r) := (s.users[u].lobby, s.users[u].room);
            SendToAll(s.users, s.lobbies[l].rooms[r].members, u, packet) ==
            R.Tell(R.Others(SessionsOf(s.users, s.lobbies[l].rooms[r].members), s.users[u].session), packet)
  {
    var l, r := s.users[u].lobby, s.users[u].room;
    MembersOwnSessions(s, l, r);
    AddressedAreOthers(s, s.lobbies[l].rooms[r].members, u, packet);
  }

  lemma CloseRefines(cfg: Config, s: ServerState, session: int)
    requires Good(cfg, s)
    ensures CloseSession(REPAIRED, s, session).Done?
    ensures R.Close(RosterOf(cfg, s), session) == Seen(cfg, CloseSession(REPAIRED, s, session))
  {
    ClientIsUser(cfg, s, session);
    if session in s.bySession {
      var s' := CloseSession(REPAIRED, s, session).state;
      var u := s.bySession[session];
      CloseTouchesOnlyItsUser(REPAIRED, s, session);
      ClosedRoster(cfg, s, s', session, u);
      CloseIsTold(cfg, s, session, u);
      OneSeatEmptied(s, u);
    }
  }

  // What a close leaves of the roster.
  lemma ClosedRoster(cfg: Config, s: ServerState, s': ServerState, session: int, u: int)
    requires Good(cfg, s) && HasKey(s.bySession, session, u) && 0 <= u < |s.users|
    requires OnlyItsUserGone(REPAIRED, s, s', session)
    ensures RosterOf(cfg, s') ==
            RosterOf(cfg, s).(clients := ClientsOf(s) - {session}, rooms := RoomsAfterClose(s, u))
  {
    ClientIsUser(cfg, s, session);
    CloseDropsClient(cfg, s, s', session);
    CloseKeepsStrays(cfg, s, s', session);
    CloseEmptiesSeat(cfg, s, s', u);
  }

  // The notices of a close are those of a departure.
  lemma CloseIsTold(cfg: Config, s: ServerState, session: int, u: int)
    requires Good(cfg, s) && HasKey(s.bySession, session, u)
    ensures session in ClientsOf(s) && CloseSession(REPAIRED, s, session).sent == R.Depart(RosterOf(cfg, s), session).1
    ensures s.users[u].domain == DomainRoom ==> RosterOf(cfg, s).HasRoom(s.users[u].lobby, s.users[u].room)
  {
    ClientIsUser(cfg, s, session);
    CloseNotifies(REPAIRED, s, session);
    if s.users[u].domain == DomainRoom {
      DepartureRefines(cfg, s, u);
    }
  }

  lemma CloseDropsClient(cfg: Config, s: ServerState, s': ServerState, session: int)
    requires Good(cfg, s) && session in s.bySession && s'.bySession == s.bySession - {session}
    requires s'.users == s.users[s.bySession[session] := s.users[s.bySession[session]].Cleared()]
    ensures ClientsOf(s') == ClientsOf(s) - {session}
  {
    forall t | t in s'.bySession ensures s'.User(s'.bySession[t]) == s.User(s.bySession[t]) {
      ClientIsUser(cfg, s, t);
      ClientIsUser(cfg, s, session);
    }
    assert ClientsOf(s').Keys == (ClientsOf(s) - {session}).Keys;
  }

  lemma CloseKeepsStrays(cfg: Config, s: ServerState, s': ServerState, session: int)
    requires Good(cfg, s) && session in s.bySession && s'.bySession == s.bySession - {session}
    requires s'.users == s.users[s.bySession[session] := s.users[s.bySession[session]].Cleared()]
    ensures StraysOf(s') == StraysOf(s)
  {
    ClientIsUser(cfg, s, session);
    var u := s.bySession[session];
    forall v | 0 <= v < |s.users| ensures v in StrayUsers(s') <==> v in StrayUsers(s) {
      assert v != u ==> s'.users[v] == s.users[v];
    }
    assert StrayUsers(s') == StrayUsers(s) && u !in StrayUsers(s);
    assert forall v :: v in StrayUsers(s) ==> s'.User(v).id == s.User(v).id;
  }

  lemma CloseEmptiesSeat(cfg: Config, s: ServerState, s': ServerState, u: int)
    requires Good(cfg, s) && 0 <= u < |s.users| && s.users[u].confirmed
    requires s'.users == s.users[u := s.users[u].Cleared()] && |s'.lobbies| == |s.lobbies|
    requires forall l :: 0 <= l < |s.lobbies| ==> WithoutUser(s.lobbies[l], s'.lobbies[l], u)
    ensures RoomsOf(s') == RoomsAfterClose(s, u)
  {
    forall l | 0 <= l < |s.lobbies| ensures LobbyRooms(s'.users, s'.lobbies[l]) == LobbyAfterClose(s, u, l) {
      assert WithoutUser(s.lobbies[l], s'.lobbies[l], u);
      forall r | 0 <= r < |s.lobbies[l].rooms|
        ensures LobbyRooms(s'.users, s'.lobbies[l])[r] == LobbyAfterClose(s, u, l)[r]
      {
        SeatAfterClose(cfg, s, s', u, l, r);
      }
    }
  }

  function RoomsAfterClose(s: ServerState, u: int): seq<seq<R.Table>>
    requires 0 <= u < |s.users|
  {
    seq(|s.lobbies|, l requires 0 <= l < |s.lobbies| => LobbyAfterClose(s, u, l))
  }

  // Only the room the user was in looks different.
  lemma OneSeatEmptied(s: ServerState, u: int)
    requires 0 <= u < |s.users|
    requires s.users[u].domain == DomainRoom ==>
               0 <= s.users[u].lobby < |s.lobbies| && s.lobbies[s.users[u].lobby].HasRoom(s.users[u].room)
    ensures var (l, r) := (s.users[u].lobby, s.users[u].room);
            RoomsAfterClose(s, u) ==
            if s.users[u].domain == DomainRoom
            then RoomsOf(s)[l := RoomsOf(s)[l][r := R.Vacate(RoomsOf(s)[l][r], s.users[u].session)]]
            else RoomsOf(s)
  {
  }

  function LobbyAfterClose(s: ServerState, u: int, l: int): (rooms: seq<R.Table>)
    requires 0 <= l < |s.lobbies| && 0 <= u < |s.users|
    ensures |rooms| == |s.lobbies[l].rooms|
  {
    var rooms := LobbyRooms(s.users, s.lobbies[l]);
    var r := s.users[u].room;
    if s.users[u].domain == DomainRoom && l == s.users[u].lobby && s.lobbies[l].HasRoom(r)
    then rooms[r := R.Vacate(rooms[r], s.users[u].session)] else rooms
  }

  lemma SeatAfterClose(cfg: Config, s: ServerState, s': ServerState, u: int, l: int, r: int)
    requires Good(cfg, s) && 0 <= u < |s.users| && s.users[u].confirmed
    requires s'.users == s.users[u := s.users[u].Cleared()] && |s'.lobbies| == |s.lobbies|
    requires 0 <= l < |s.lobbies| && s.lobbies[l].HasRoom(r) && WithoutUser(s.lobbies[l], s'.lobbies[l], u)
    ensures s'.lobbies[l].HasRoom(r)
    ensures LobbyRooms(s'.users, s'.lobbies[l])[r] == LobbyAfterClose(s, u, l)[r]
  {
    var room := s.lobbies[l].rooms[r];
    assert MembersAgree(s.users, s.lobbies[l], l) && RoomAgrees(s.users, room.members, l, r);
    TableIsRoom(cfg, s, l, r);
    TableAfterClose(s.users, s'.users, room, s'.lobbies[l].rooms[r], u);
    if u in room.members {
      DepartureRefines(cfg, s, u);
    }
  }

  lemma TableAfterClose(users: seq<UserState>, users': seq<UserState>, room: RoomState, room': RoomState, u: int)
    requires 0 <= u < |users| == |users'| && users' == users[u := users'[u]]
    requires RoomShape(room) && RoomWithout(room, room', u)
    ensures TableOf(users', room') == if u in room.members then TableOf(users, room.Leave(u).0) else TableOf(users, room)
  {
    NoneOfTheRemaining(users, users', room.members, u);
    assert u !in room.members ==> Remaining(room.members, u) == room.members;
  }

  // Those who remain are others, so a change to the one who left does not show.
  lemma NoneOfTheRemaining(users: seq<UserState>, users': seq<UserState>, members: seq<int>, u: int)
    requires NoDup(members) && 0 <= u < |users| == |users'| && users' == users[u := users'[u]]
    ensures SessionsOf(users', Remaining(members, u)) == SessionsOf(users, Remaining(members, u))
  {
    var rest := Remaining(members, u);
    if u in members {
      EraseMember(members, u);
    }
    forall i | 0 <= i < |rest| ensures rest[i] != u {
      assert rest[i] in rest;
    }
  }

  lemma StepRefines(cfg: Config, s: ServerState, e: Event)
    requires Good(cfg, s)
    ensures Step(REPAIRED, s, e).Done?
    ensures R.Respond(RosterOf(cfg, s), e) == Seen(cfg, Step(REPAIRED, s, e))
  {
    match e {
      case Close(session) => CloseRefines(cfg, s, session);
      case LoginReq(session, id, buffer) => LoginRefines(cfg, s, session, id, buffer);
      case LobbyListReq(session) => LobbyListRefines(cfg, s, session);
      case LobbyEnterReq(session, lobbyId) => LobbyEnterRefines(cfg, s, session, lobbyId);
      case LobbyLeaveReq(session) => LobbyLeaveRefines(cfg, s, session);
      case RoomEnterReq(session, isCreate, roomIndex, title) =>
        RoomEnterRefines(cfg, s, session, isCreate, roomIndex, title);
      case RoomLeaveReq(session) => RoomLeaveRefines(cfg, s, session);
      case RoomChatReq(session, msg) => RoomChatRefines(cfg, s, session, msg);
      case _ =>
    }
  }

  lemma StepKeepsGood(cfg: Config, s: ServerState, e: Event)
    requires Good(cfg, s) && Step(REPAIRED, s, e).Done?
    ensures Good(cfg, Step(REPAIRED, s, e).state)
  {
    var s' := Step(REPAIRED, s, e).state;
    StepKeepsInv(REPAIRED, s, e);
    Slots.StepKeepsSlots(REPAIRED, s, e);
    StepKeepsIds(REPAIRED, s, e);
    StepKeepsSessions(REPAIRED, s, e);
    var l, r, m := Rooms.StepMovesOneRoom(REPAIRED, s, e);
    forall k | 0 <= k < |s'.lobbies| ensures LobbyLimitsAre(cfg, s'.lobbies[k]) {
      assert Rooms.LobbyMove(s.lobbies[k], s'.lobbies[k], r, if k == l then m else Rooms.Stay);
      assert LobbyLimitsAre(cfg, s.lobbies[k]);
    }
  }

  lemma InitIsGood(cfg: Config)
    requires ValidConfig(cfg)
    ensures Good(cfg, Init(cfg)) && RosterOf(cfg, Init(cfg)) == R.Start(cfg)
  {
    var s := Init(cfg);
    InitKeepsInv(cfg);
    Slots.InitKeepsSlots(cfg);
    InitKeepsRegistry(REPAIRED, cfg);
    forall l | 0 <= l < |s.lobbies| ensures LobbyLimitsAre(cfg, s.lobbies[l]) && RoomsOf(s)[l] == R.Start(cfg).rooms[l] {
      assert s.lobbies[l] == NewLobby(l, cfg);
      NewLobbyIsClosed(cfg, s.users, l);
    }
    assert StrayUsers(s) == {};
  }

  lemma NewLobbyIsClosed(cfg: Config, users: seq<UserState>, l: nat)
    requires ValidConfig(cfg)
    ensures LobbyLimitsAre(cfg, NewLobby(l, cfg))
    ensures LobbyRooms(users, NewLobby(l, cfg)) == seq(cfg.roomsPerLobby, _ => R.Table(false, []))
  {
    var lobby := NewLobby(l, cfg);
    forall r | 0 <= r < |lobby.rooms| ensures LobbyRooms(users, lobby)[r] == R.Table(false, []) {
      assert lobby.rooms[r] == NewRoom(r, cfg);
    }
  }

  lemma {:induction false} RunRefines(cfg: Config, s: ServerState, es: seq<Event>)
    requires Good(cfg, s)
    ensures Run(REPAIRED, s, es).Ran? && Good(cfg, Run(REPAIRED, s, es).state)
    ensures var r := Run(REPAIRED, s, es);
            R.RespondAll(RosterOf(cfg, s), es) == R.Story(RosterOf(cfg, r.state), r.codes, r.sent)
    decreases |es|
  {
    if es != [] {
      StepRefines(cfg, s, es[0]);
      StepKeepsGood(cfg, s, es[0]);
      RunRefines(cfg, Step(REPAIRED, s, es[0]).state, es[1..]);
    }
  }

  /**
   * The repaired server is the roster. Over every sequence of events it returns the same codes, sends the same
   * packets to the same sessions in the same order, and ends in a state that looks like the roster's; in particular
   * it never runs into undefined behaviour.
   */
  lemma RepairedServerIsTheRoster(cfg: Config, es: seq<Event>)
    requires ValidConfig(cfg)
    ensures var r := Run(REPAIRED, Init(cfg), es);
            && r.Ran?
            && R.RespondAll(R.Start(cfg), es) == R.Story(RosterOf(cfg, r.state), r.codes, r.sent)
  {
    InitIsGood(cfg);
    RunRefines(cfg, Init(cfg), es);
  }
}
