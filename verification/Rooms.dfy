/** How one step of the server changes the lobbies and rooms: at most one room moves, in one of four ways. */
module Rooms {
  import opened Types
  import opened State
  import opened Handlers
  import Invariant

  datatype Move = Stay | Open | Join(user: int) | Part(user: int)

  ghost predicate RoomMove(a: RoomState, b: RoomState, m: Move) {
    && b.index == a.index && b.max == a.max
    && match m
       case Stay => b == a
       case Open => !a.used && b.used && b.members == a.members && |a.members| == a.max
       case Join(u) => b.used && |a.members| != a.max && b.members == a.members + [u] && (a.used ==> b.title == a.title)
       case Part(u) => a.used && u in a.members && b == a.Leave(u).0
  }

  // Lobby b is lobby a, but for its slots and dictionaries and the move m of room r.
  ghost predicate LobbyMove(a: LobbyState, b: LobbyState, r: int, m: Move) {
    && b.index == a.index && b.max == a.max && |b.slots| == |a.slots| && |b.rooms| == |a.rooms|
    && forall q :: 0 <= q < |a.rooms| ==> RoomMove(a.rooms[q], b.rooms[q], if q == r then m else Stay)
  }

  ghost predicate ServerMove(s: ServerState, s': ServerState, l: int, r: int, m: Move) {
    && |s'.users| == |s.users| && |s'.lobbies| == |s.lobbies|
    && forall k :: 0 <= k < |s.lobbies| ==> LobbyMove(s.lobbies[k], s'.lobbies[k], r, if k == l then m else Stay)
  }

  lemma LeaveLobbyMovesNoRoom(p: Patch, s: ServerState, l: int, u: int)
    requires 0 <= l < |s.lobbies|
    ensures ServerMove(s, s.LeaveLobby(p, l, u).0, -1, -1, Stay)
  {
  }

  // The move a room makes when user u leaves it.
  function LeaveMove(room: RoomState, u: int): Move {
    if room.Leave(u).1 == NONE then Part(u) else Stay
  }

  lemma LeaveIsAMove(room: RoomState, u: int)
    ensures RoomMove(room, room.Leave(u).0, LeaveMove(room, u))
  {
  }

  lemma LobbyEnterMovesNoRoom(p: Patch, s: ServerState, session: int, lobbyId: int)
    requires LobbyEnter(p, s, session, lobbyId).Done?
    ensures ServerMove(s, LobbyEnter(p, s, session, lobbyId).state, -1, -1, Stay)
  {
  }

  // The move a room makes when user u enters it, created on the way or not.
  function EnterMove(a: RoomState, chosen: RoomState, u: int): Move {
    if chosen.Enter(u).1 == NONE then Join(u) else if a.used == chosen.used then Stay else Open
  }

  lemma EnterIsAMove(lobby: LobbyState, isCreate: bool, roomIndex: int, title: string, u: int)
    requires ChooseRoom(lobby, isCreate, roomIndex, title).Chosen?
    ensures var choice := ChooseRoom(lobby, isCreate, roomIndex, title);
            var a := lobby.rooms[choice.room];
            RoomMove(a, choice.state.Enter(u).0, EnterMove(a, choice.state, u))
  {
  }

  lemma OneRoomMoves(s: ServerState, s': ServerState, l: int, r: int, b: RoomState, m: Move)
    requires 0 <= l < |s.lobbies| && s.lobbies[l].HasRoom(r)
    requires s'.lobbies == s.WithRoom(l, r, b).lobbies && |s'.users| == |s.users|
    requires RoomMove(s.lobbies[l].rooms[r], b, m)
    ensures ServerMove(s, s', l, r, m)
  {
  }

  lemma RoomEnterMoves(s: ServerState, session: int, isCreate: bool, roomIndex: int, title: string)
    returns (l: int, r: int, m: Move)
    requires Invariant.Inv(s)
    ensures RoomEnter(s, session, isCreate, roomIndex, title).Done?
    ensures ServerMove(s, RoomEnter(s, session, isCreate, roomIndex, title).state, l, r, m)
    ensures m.Join? || m.Stay? || m.Open?
    ensures m.Join? || m.Open? ==> 0 <= l < |s.lobbies| && s.lobbies[l].HasRoom(r)
    ensures (m.Join? || m.Open?) && !s.lobbies[l].rooms[r].used ==>
              isCreate && RoomEnter(s, session, isCreate, roomIndex, title).state.lobbies[l].rooms[r].title == title
    ensures m.Join? ==> s.GetUser(session) == Found(m.user) && s.User(m.user).domain == DomainLobby
  {
    var s' := RoomEnter(s, session, isCreate, roomIndex, title).state;
    l, r, m := -1, -1, Stay;
    if s' == s {
      SameLobbiesMoveNot(s, s');
    } else {
      var u := s.bySession[session];
      assert Invariant.UserInv(s.users, s.free, u);
      l := s.User(u).lobby;
      var choice := ChooseRoom(s.lobbies[l], isCreate, roomIndex, title);
      r := choice.room;
      m := EnterMove(s.lobbies[l].rooms[r], choice.state, u);
      EnterIsAMove(s.lobbies[l], isCreate, roomIndex, title, u);
      OneRoomMoves(s, s', l, r, choice.state.Enter(u).0, m);
    }
  }

  lemma RoomLeaveMoves(s: ServerState, session: int) returns (l: int, r: int, m: Move)
    ensures RoomLeave(s, session).Done?
    ensures ServerMove(s, RoomLeave(s, session).state, l, r, m)
    ensures m.Part? || m.Stay?
  {
    l, r, m := -1, -1, Stay;
    if RoomLeave(s, session).code == NONE {
      var user := s.User(s.bySession[session]);
      l, r := user.lobby, user.room;
      m := Part(user.index);
      LeaveIsAMove(s.lobbies[l].rooms[r], user.index);
      OneRoomMoves(s, RoomLeave(s, session).state, l, r, s.lobbies[l].rooms[r].Leave(user.index).0, m);
    } else {
      SameLobbiesMoveNot(s, s);
    }
  }

  lemma LeaveAllMoves(p: Patch, s: ServerState, u: int) returns (l: int, r: int, m: Move)
    ensures ServerMove(s, LeaveAll(p, s, u).0, l, r, m)
    ensures m.Part? || m.Stay?
  {
    l, r, m := s.User(u).lobby, s.User(u).room, Stay;
    if s.HasLobby(l) {
      if s.lobbies[l].HasRoom(r) {
        var room := s.lobbies[l].rooms[r];
        m := LeaveMove(room, s.User(u).index);
        LeaveIsAMove(room, s.User(u).index);
        var s1 := s.WithRoom(l, r, room.Leave(s.User(u).index).0);
        assert ServerMove(s, s1, l, r, m);
        LeaveLobbyMovesNoRoom(p, s1, l, s.User(u).index);
        MovesCompose(s, s1, LeaveAll(p, s, u).0, l, r, m);
      } else {
        LeaveLobbyMovesNoRoom(p, s, l, s.User(u).index);
      }
    }
  }

  lemma MovesCompose(s: ServerState, s1: ServerState, s2: ServerState, l: int, r: int, m: Move)
    requires ServerMove(s, s1, l, r, m) && ServerMove(s1, s2, -1, -1, Stay)
    ensures ServerMove(s, s2, l, r, m)
  {
    forall k | 0 <= k < |s.lobbies|
      ensures LobbyMove(s.lobbies[k], s2.lobbies[k], r, if k == l then m else Stay)
    {
      assert LobbyMove(s.lobbies[k], s1.lobbies[k], r, if k == l then m else Stay);
      assert LobbyMove(s1.lobbies[k], s2.lobbies[k], -1, Stay);
      assert forall q :: 0 <= q < |s.lobbies[k].rooms| ==> RoomMove(s1.lobbies[k].rooms[q], s2.lobbies[k].rooms[q], Stay);
    }
  }

  lemma SameLobbiesMoveNot(s: ServerState, s': ServerState)
    requires s'.lobbies == s.lobbies && |s'.users| == |s.users|
    ensures ServerMove(s, s', -1, -1, Stay)
  {
  }

  /** Whatever the event, at most one room changes, and it opens, gains one member at the end, or loses one. */
  lemma StepMovesOneRoom(p: Patch, s: ServerState, e: Event) returns (l: int, r: int, m: Move)
    requires Invariant.Inv(s) && Step(p, s, e).Done?
    ensures ServerMove(s, Step(p, s, e).state, l, r, m)
    ensures m.Join? ==> s.GetUser(e.session) == Found(m.user)
    ensures m.Join? || m.Open? ==> e.RoomEnterReq? && 0 <= l < |s.lobbies| && s.lobbies[l].HasRoom(r)
    ensures (m.Join? || m.Open?) && !s.lobbies[l].rooms[r].used ==>
              e.isCreate && Step(p, s, e).state.lobbies[l].rooms[r].title == e.title
    ensures m.Part? ==> e.RoomLeaveReq? || e.Close?
  {
    l, r, m := -1, -1, Stay;
    match e {
      case Close(session) =>
        if s.GetUser(session).Found? {
          var u := s.bySession[session];
          l, r, m := LeaveAllMoves(p, s, u);
          var s1 := LeaveAll(p, s, u).0;
          SameLobbiesMoveNot(s1, s1.RemoveUser(p, session).0);
          MovesCompose(s, s1, s1.RemoveUser(p, session).0, l, r, m);
        } else {
          SameLobbiesMoveNot(s, s);
        }
      case LobbyEnterReq(session, lobbyId) => LobbyEnterMovesNoRoom(p, s, session, lobbyId);
      case LobbyLeaveReq(session) =>
        if s.GetUser(session).Found? && s.HasLobby(s.User(s.bySession[session]).lobby) {
          var user := s.User(s.bySession[session]);
          LeaveLobbyMovesNoRoom(p, s, user.lobby, user.index);
        }
        if Step(p, s, e).state == s {
          SameLobbiesMoveNot(s, s);
        }
      case RoomEnterReq(session, isCreate, roomIndex, title) =>
        l, r, m := RoomEnterMoves(s, session, isCreate, roomIndex, title);
      case RoomLeaveReq(session) => l, r, m := RoomLeaveMoves(s, session);
      case _ => SameLobbiesMoveNot(s, Step(p, s, e).state);
    }
  }
}
