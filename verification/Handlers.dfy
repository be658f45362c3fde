/** The packet handlers as steps of a state machine, and runs of it. */
module Handlers {
  import opened Types
  import opened State

  /** Undefined: the step ran into undefined behaviour and nothing is known afterwards. */
  datatype Outcome = Done(state: ServerState, code: Code, sent: seq<Sent>) | Undefined

  function Login(p: Patch, s: ServerState, session: int, id: string, buffer: int): Outcome {
    var (s', code) := s.AddUser(p, session, id, buffer);
    Done(s', code, [Sent(session, LoginRes(code))])
  }

  function LobbyList(p: Patch, s: ServerState, session: int): Outcome {
    match s.GetUser(session)
    case Missing(code) => Done(s, code, [Sent(session, LobbyListRes(code, []))])
    case Found(u) =>
      if s.User(u).domain != DomainLogin then
        Done(s, LOBBY_LIST_INVALID_DOMAIN, [Sent(session, LobbyListRes(LOBBY_LIST_INVALID_DOMAIN, []))])
      else
        Done(s, NONE, [Sent(session, LobbyListRes(NONE, LobbyInfos(p, s.lobbies)))])
  }

  function LobbyInfos(p: Patch, lobbies: seq<LobbyState>): seq<LobbyInfo> {
    seq(|lobbies|, l requires 0 <= l < |lobbies| =>
      LobbyInfo(lobbies[l].index, lobbies[l].UserCount(p), lobbies[l].max))
  }

  // A failed lookup is answered with its own code but returned as a domain error.
  function LobbyEnter(p: Patch, s: ServerState, session: int, lobbyId: int): Outcome {
    match s.GetUser(session)
    case Missing(code) =>
      Done(s, LOBBY_ENTER_INVALID_DOMAIN, [Sent(session, LobbyEnterRes(code, None))])
    case Found(u) =>
      if s.User(u).domain != DomainLogin then
        Done(s, LOBBY_ENTER_INVALID_DOMAIN, [Sent(session, LobbyEnterRes(LOBBY_ENTER_INVALID_DOMAIN, None))])
      else if !s.HasLobby(lobbyId) then
        Done(s, LOBBY_ENTER_INVALID_LOBBY_INDEX, [Sent(session, LobbyEnterRes(LOBBY_ENTER_INVALID_LOBBY_INDEX, None))])
      else
        AdmitToLobby(p, s, session, u, lobbyId)
  }

  // LobbyEnter once user and lobby are found.
  function AdmitToLobby(p: Patch, s: ServerState, session: int, u: int, l: int): Outcome
    requires 0 <= l < |s.lobbies|
  {
    var lobby := s.lobbies[l];
    match lobby.Enter(p, s.User(u).index, s.User(u).id)
    case NoSlot => Undefined
    case Entered(lobby', code) =>
      if code != NONE then Done(s, code, [Sent(session, LobbyEnterRes(code, None))])
      else
        Done(s.WithLobby(l, lobby').WithUser(u, s.User(u).EnteredLobby(lobby.index)), NONE,
             [Sent(session, LobbyEnterRes(NONE, Some((lobby.max, ToShort(|lobby.rooms|)))))])
  }

  function LobbyLeave(p: Patch, s: ServerState, session: int): Outcome {
    match s.GetUser(session)
    case Missing(code) => Done(s, code, [Sent(session, LobbyLeaveRes(code))])
    case Found(u) =>
      var user := s.User(u);
      if user.domain != DomainLobby then
        Done(s, LOBBY_LEAVE_INVALID_DOMAIN, [Sent(session, LobbyLeaveRes(LOBBY_LEAVE_INVALID_DOMAIN))])
      else if !s.HasLobby(user.lobby) then
        Done(s, LOBBY_LEAVE_INVALID_LOBBY_INDEX, [Sent(session, LobbyLeaveRes(LOBBY_LEAVE_INVALID_LOBBY_INDEX))])
      else
        var (s', code) := s.LeaveLobby(p, user.lobby, user.index);
        Done(s', code, [Sent(session, LobbyLeaveRes(code))])
  }

  // The room a RoomEnter request leads to, created on the way if asked for.
  datatype RoomChoice = Chosen(room: int, state: RoomState) | Refused(code: Code)

  function ChooseRoom(lobby: LobbyState, isCreate: bool, roomIndex: int, title: string): (c: RoomChoice)
    ensures c.Chosen? ==> lobby.HasRoom(c.room)
  {
    if isCreate then
      var r := lobby.AllocRoom(0);
      if r == |lobby.rooms| then Refused(ROOM_ENTER_EMPTY_ROOM)
      else
        var (room, code) := lobby.rooms[r].Create(title);
        if code != NONE then Refused(code) else Chosen(r, room)
    else if !lobby.HasRoom(roomIndex) then Refused(ROOM_ENTER_INVALID_ROOM_INDEX)
    else Chosen(roomIndex, lobby.rooms[roomIndex])
  }

  function RoomEnter(s: ServerState, session: int, isCreate: bool, roomIndex: int, title: string): Outcome {
    match s.GetUser(session)
    case Missing(code) => Done(s, code, [Sent(session, RoomEnterRes(code))])
    case Found(u) =>
      var user := s.User(u);
      if user.domain != DomainLobby then
        Done(s, ROOM_ENTER_INVALID_DOMAIN, [Sent(session, RoomEnterRes(ROOM_ENTER_INVALID_DOMAIN))])
      else if !s.HasLobby(user.lobby) then
        Done(s, ROOM_ENTER_INVALID_LOBBY_INDEX, [Sent(session, RoomEnterRes(ROOM_ENTER_INVALID_LOBBY_INDEX))])
      else
        match ChooseRoom(s.lobbies[user.lobby], isCreate, roomIndex, title)
        case Refused(code) => Done(s, code, [Sent(session, RoomEnterRes(code))])
        case Chosen(r, room) => SeatInRoom(s, session, u, user.lobby, r, room)
  }

  // RoomEnter once the room is chosen, `room` being its state by then.
  function SeatInRoom(s: ServerState, session: int, u: int, l: int, r: int, room: RoomState): Outcome
    requires 0 <= l < |s.lobbies| && s.lobbies[l].HasRoom(r)
  {
    var user := s.User(u);
    var (room', code) := room.Enter(user.index);
    var s1 := s.WithRoom(l, r, room');
    if code != NONE then Done(s1, code, [Sent(session, RoomEnterRes(code))])
    else
      var s2 := s1.WithUser(u, user.EnteredRoom(l, room.index));
      Done(s2, NONE, SendToAll(s2.users, room'.members, user.index, NewUserNtf(user.id))
                     + [Sent(session, RoomEnterRes(NONE))])
  }

  // Room::NotifyLeaveUserInfo
  function NotifyLeave(users: seq<UserState>, room: RoomState, id: string): seq<Sent> {
    if room.used then SendToAll(users, room.members, -1, LeaveUserNtf(id)) else []
  }

  // Every response of this handler goes out under the id of a room-enter response.
  function RoomLeave(s: ServerState, session: int): Outcome {
    match s.GetUser(session)
    case Missing(code) => Done(s, code, [Sent(session, RoomEnterRes(code))])
    case Found(u) =>
      var user := s.User(u);
      if user.domain != DomainRoom then
        Done(s, ROOM_LEAVE_INVALID_DOMAIN, [Sent(session, RoomEnterRes(ROOM_LEAVE_INVALID_DOMAIN))])
      else if !s.HasLobby(user.lobby) then
        Done(s, ROOM_ENTER_INVALID_LOBBY_INDEX, [Sent(session, RoomEnterRes(ROOM_ENTER_INVALID_LOBBY_INDEX))])
      else if !s.lobbies[user.lobby].HasRoom(user.room) then
        Done(s, ROOM_ENTER_INVALID_ROOM_INDEX, [Sent(session, RoomEnterRes(ROOM_ENTER_INVALID_ROOM_INDEX))])
      else
        LeaveSeat(s, session, u, user.lobby, user.room)
  }

  // RoomLeave once user, lobby and room are found.
  function LeaveSeat(s: ServerState, session: int, u: int, l: int, r: int): Outcome
    requires 0 <= l < |s.lobbies| && s.lobbies[l].HasRoom(r)
  {
    var user := s.User(u);
    var (room', code) := s.lobbies[l].rooms[r].Leave(user.index);
    if code != NONE then Done(s, code, [Sent(session, RoomEnterRes(code))])
    else
      var s' := s.WithRoom(l, r, room').WithUser(u, user.EnteredLobby(l));
      Done(s', NONE, NotifyLeave(s'.users, room', user.id) + [Sent(session, RoomEnterRes(NONE))])
  }

  function RoomChat(p: Patch, s: ServerState, session: int, msg: string): Outcome {
    match s.GetUser(session)
    case Missing(code) => Done(s, code, [Sent(session, RoomChatRes(code))])
    case Found(u) =>
      var user := s.User(u);
      if user.domain != DomainRoom then
        Done(s, ROOM_CHAT_INVALID_DOMAIN, [Sent(session, RoomChatRes(ROOM_CHAT_INVALID_DOMAIN))])
      else if !s.HasLobby(user.lobby) then
        Done(s, ROOM_CHAT_INVALID_LOBBY_INDEX, [Sent(session, RoomChatRes(ROOM_CHAT_INVALID_LOBBY_INDEX))])
      else if !s.lobbies[user.lobby].HasRoom(user.room) then
        Done(s, ROOM_CHAT_INVALID_ROOM_INDEX, [Sent(session, RoomChatRes(ROOM_CHAT_INVALID_ROOM_INDEX))])
      else
        var pass := if p.passByUser then user.index else user.session;
        Done(s, NONE, SendToAll(s.users, s.lobbies[user.lobby].rooms[user.room].members, pass, ChatNtf(user.id, msg))
                      + [Sent(session, RoomEnterRes(NONE))])
  }

  // The part of NtfSysCloseSession between finding the user and releasing it.
  function LeaveAll(p: Patch, s: ServerState, u: int): (ServerState, seq<Sent>) {
    var user := s.User(u);
    if !s.HasLobby(user.lobby) then (s, [])
    else if !s.lobbies[user.lobby].HasRoom(user.room) then
      (s.LeaveLobby(p, user.lobby, user.index).0, [])
    else
      var (room', code) := s.lobbies[user.lobby].rooms[user.room].Leave(user.index);
      var s1 := s.WithRoom(user.lobby, user.room, room');
      var sent := if p.notifyIfMember && code != NONE then [] else NotifyLeave(s.users, room', user.id);
      (s1.LeaveLobby(p, user.lobby, user.index).0, sent)
  }

  function CloseSession(p: Patch, s: ServerState, session: int): Outcome {
    match s.GetUser(session)
    case Missing(_) => Done(s, NONE, [])
    case Found(u) =>
      var (s1, sent) := LeaveAll(p, s, u);
      Done(s1.RemoveUser(p, session).0, NONE, sent)
  }

  /** PacketProcess::Process; the connection notification changes nothing modelled here. */
  function Step(p: Patch, s: ServerState, e: Event): Outcome {
    match e
    case Connect(_) => Done(s, NONE, [])
    case Close(session) => CloseSession(p, s, session)
    case LoginReq(session, id, buffer) => Login(p, s, session, id, buffer)
    case LobbyListReq(session) => LobbyList(p, s, session)
    case LobbyEnterReq(session, lobbyId) => LobbyEnter(p, s, session, lobbyId)
    case LobbyLeaveReq(session) => LobbyLeave(p, s, session)
    case RoomEnterReq(session, isCreate, roomIndex, title) => RoomEnter(s, session, isCreate, roomIndex, title)
    case RoomLeaveReq(session) => RoomLeave(s, session)
    case RoomChatReq(session, msg) => RoomChat(p, s, session, msg)
    case EchoReq(session, data) => Done(s, NONE, [Sent(session, EchoRes(data))])
    case Unregistered(_) => Done(s, NONE, [])
  }

  /** A whole run: the events one after the other, stopping for good at undefined behaviour. */
  datatype Result = Ran(state: ServerState, codes: seq<Code>, sent: seq<seq<Sent>>) | Lost

  function Run(p: Patch, s: ServerState, es: seq<Event>): Result
    decreases |es|
  {
    if es == [] then Ran(s, [], [])
    else
      match Step(p, s, es[0])
      case Undefined => Lost
      case Done(s', code, sent) =>
        match Run(p, s', es[1..])
        case Lost => Lost
        case Ran(s'', codes, sents) => Ran(s'', [code] + codes, [sent] + sents)
  }
}
