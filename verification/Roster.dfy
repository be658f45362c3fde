/**
 * What the server is for, without pools, indices, slots or keys: who is logged in under which ID, where each
 * client is, and who sits in each room in order of entry. Clients are named by their session alone.
 */
module Roster {
  import opened Types

  datatype Place = AtLogin | InLobby(lobby: int) | InRoom(lobby: int, room: int)

  datatype Client = Client(id: string, place: Place)

  // A room: whether it is in use, and the sessions in it in order of entry.
  datatype Table = Table(open: bool, sessions: seq<int>)

  /**
   * `strays` are the IDs of logins accepted on a session that was already logged in. Their session keeps leading to
   * the first login, so nothing ever reaches them again, but they hold on to their ID and their place in the pool.
   */
  datatype Roster = Roster(cfg: Config, clients: map<int, Client>, strays: set<string>, rooms: seq<seq<Table>>)
  {
    predicate HasId(id: string) {
      id in strays || exists t :: t in clients && clients[t].id == id
    }

    // The clients in lobby l, in a room or not.
    function Population(l: int): nat {
      |set t | t in clients && clients[t].place != AtLogin && clients[t].place.lobby == l|
    }

    predicate HasRoom(l: int, r: int) {
      0 <= l < |rooms| && 0 <= r < |rooms[l]|
    }

    function Move(session: int, place: Place): Roster
      requires session in clients
    {
      this.(clients := clients[session := clients[session].(place := place)])
    }

    function Lay(l: int, r: int, table: Table): Roster
      requires HasRoom(l, r)
    {
      this.(rooms := rooms[l := rooms[l][r := table]])
    }
  }

  datatype Answer = Answer(roster: Roster, code: Code, sent: seq<Sent>)

  function Start(cfg: Config): Roster {
    Roster(cfg, map[], {}, seq(if cfg.lobbyCount < 0 then 0 else cfg.lobbyCount, _ =>
                             seq(if cfg.roomsPerLobby < 0 then 0 else cfg.roomsPerLobby, _ => Table(false, []))))
  }

  function Tell(sessions: seq<int>, packet: Packet): seq<Sent> {
    seq(|sessions|, i requires 0 <= i < |sessions| => Sent(sessions[i], packet))
  }

  // The sequence without x.
  function Others(s: seq<int>, x: int): seq<int> {
    if s == [] then [] else (if s[0] == x then [] else [s[0]]) + Others(s[1..], x)
  }

  function Login(r: Roster, session: int, id: string): Answer {
    var code := if r.HasId(id) then USER_MGR_ID_DUPLICATION
                else if |r.clients| + |r.strays| >= r.cfg.maxUsers then USER_MGR_MAX_USER_COUNT
                else NONE;
    Answer(if code != NONE then r
           else if session in r.clients then r.(strays := r.strays + {id})
           else r.(clients := r.clients[session := Client(id, AtLogin)]),
           code, [Sent(session, LoginRes(code))])
  }

  function LobbyList(r: Roster, session: int): Answer {
    var code := if session !in r.clients then USER_MGR_INVALID_SESSION_INDEX
                else if r.clients[session].place != AtLogin then LOBBY_LIST_INVALID_DOMAIN
                else NONE;
    Answer(r, code, [Sent(session, LobbyListRes(code,
      if code == NONE then seq(|r.rooms|, l => LobbyInfo(l, r.Population(l), r.cfg.maxLobbyUsers)) else []))])
  }

  function LobbyEnter(r: Roster, session: int, l: int): Answer {
    if session !in r.clients then
      Answer(r, LOBBY_ENTER_INVALID_DOMAIN, [Sent(session, LobbyEnterRes(USER_MGR_INVALID_SESSION_INDEX, None))])
    else
      var code := if r.clients[session].place != AtLogin then LOBBY_ENTER_INVALID_DOMAIN
                  else if !(0 <= l < |r.rooms|) then LOBBY_ENTER_INVALID_LOBBY_INDEX
                  else if r.Population(l) >= r.cfg.maxLobbyUsers then LOBBY_ENTER_MAX_USER_COUNT
                  else NONE;
      if code != NONE then Answer(r, code, [Sent(session, LobbyEnterRes(code, None))])
      else Answer(r.Move(session, InLobby(l)), NONE,
                  [Sent(session, LobbyEnterRes(NONE, Some((r.cfg.maxLobbyUsers, r.cfg.roomsPerLobby))))])
  }

  function LobbyLeave(r: Roster, session: int): Answer {
    var code := if session !in r.clients then USER_MGR_INVALID_SESSION_INDEX
                else if !r.clients[session].place.InLobby? then LOBBY_LEAVE_INVALID_DOMAIN
                else NONE;
    Answer(if code == NONE then r.Move(session, AtLogin) else r, code, [Sent(session, LobbyLeaveRes(code))])
  }

  // First room not in use from position i on, or the number of rooms.
  function FirstClosed(rooms: seq<Table>, i: nat): (k: nat)
    requires i <= |rooms|
    ensures i <= k <= |rooms|
    decreases |rooms| - i
  {
    if i == |rooms| || !rooms[i].open then i else FirstClosed(rooms, i + 1)
  }

  function RoomEnter(r: Roster, session: int, isCreate: bool, roomIndex: int): Answer {
    if session !in r.clients then
      Answer(r, USER_MGR_INVALID_SESSION_INDEX, [Sent(session, RoomEnterRes(USER_MGR_INVALID_SESSION_INDEX))])
    else if !r.clients[session].place.InLobby? then
      Answer(r, ROOM_ENTER_INVALID_DOMAIN, [Sent(session, RoomEnterRes(ROOM_ENTER_INVALID_DOMAIN))])
    else
      var l := r.clients[session].place.lobby;
      if !(0 <= l < |r.rooms|) then
        Answer(r, ROOM_ENTER_INVALID_LOBBY_INDEX, [Sent(session, RoomEnterRes(ROOM_ENTER_INVALID_LOBBY_INDEX))])
      else
        var k := if isCreate then FirstClosed(r.rooms[l], 0) else roomIndex;
        if !r.HasRoom(l, k) then
          var code := if isCreate then ROOM_ENTER_EMPTY_ROOM else ROOM_ENTER_INVALID_ROOM_INDEX;
          Answer(r, code, [Sent(session, RoomEnterRes(code))])
        else if !isCreate && !r.rooms[l][k].open then
          Answer(r, ROOM_ENTER_NOT_CREATED, [Sent(session, RoomEnterRes(ROOM_ENTER_NOT_CREATED))])
        else TakeSeat(r, session, l, k)
  }

  // Entering room k, which is opened if it was not open; a full room stays as it is, but open.
  function TakeSeat(r: Roster, session: int, l: int, k: int): Answer
    requires session in r.clients && r.HasRoom(l, k)
  {
    var sessions := r.rooms[l][k].sessions;
    if |sessions| == r.cfg.maxRoomUsers then
      Answer(r.Lay(l, k, Table(true, sessions)), ROOM_ENTER_MEMBER_FULL,
             [Sent(session, RoomEnterRes(ROOM_ENTER_MEMBER_FULL))])
    else
      Answer(r.Lay(l, k, Table(true, sessions + [session])).Move(session, InRoom(l, k)), NONE,
             Tell(sessions, NewUserNtf(r.clients[session].id)) + [Sent(session, RoomEnterRes(NONE))])
  }

  // The table without one session, closed when nobody is left.
  function Vacate(table: Table, session: int): Table {
    var rest := Others(table.sessions, session);
    Table(rest != [], rest)
  }

  // Taking a client out of the room it is in, and telling the others.
  function Depart(r: Roster, session: int): (Roster, seq<Sent>)
    requires session in r.clients
  {
    var client := r.clients[session];
    if client.place.InRoom? && r.HasRoom(client.place.lobby, client.place.room) then
      var l, k := client.place.lobby, client.place.room;
      var table := Vacate(r.rooms[l][k], session);
      (r.Lay(l, k, table), Tell(table.sessions, LeaveUserNtf(client.id)))
    else (r, [])
  }

  function RoomLeave(r: Roster, session: int): Answer {
    var code := if session !in r.clients then USER_MGR_INVALID_SESSION_INDEX
                else if !r.clients[session].place.InRoom? then ROOM_LEAVE_INVALID_DOMAIN
                else NONE;
    if code != NONE then Answer(r, code, [Sent(session, RoomEnterRes(code))])
    else
      var (r', sent) := Depart(r, session);
      Answer(r'.Move(session, InLobby(r.clients[session].place.lobby)), NONE, sent + [Sent(session, RoomEnterRes(NONE))])
  }

  function RoomChat(r: Roster, session: int, msg: string): Answer {
    if session !in r.clients then
      Answer(r, USER_MGR_INVALID_SESSION_INDEX, [Sent(session, RoomChatRes(USER_MGR_INVALID_SESSION_INDEX))])
    else
      var client := r.clients[session];
      if !client.place.InRoom? || !r.HasRoom(client.place.lobby, client.place.room) then
        Answer(r, ROOM_CHAT_INVALID_DOMAIN, [Sent(session, RoomChatRes(ROOM_CHAT_INVALID_DOMAIN))])
      else
        Answer(r, NONE, Tell(Others(r.rooms[client.place.lobby][client.place.room].sessions, session), ChatNtf(client.id, msg))
                        + [Sent(session, RoomEnterRes(NONE))])
  }

  function Close(r: Roster, session: int): Answer {
    if session !in r.clients then Answer(r, NONE, [])
    else
      var (r', sent) := Depart(r, session);
      Answer(r'.(clients := r'.clients - {session}), NONE, sent)
  }

  function Respond(r: Roster, e: Event): Answer {
    match e
    case Connect(_) => Answer(r, NONE, [])
    case Close(session) => Close(r, session)
    case LoginReq(session, id, _) => Login(r, session, id)
    case LobbyListReq(session) => LobbyList(r, session)
    case LobbyEnterReq(session, l) => LobbyEnter(r, session, l)
    case LobbyLeaveReq(session) => LobbyLeave(r, session)
    case RoomEnterReq(session, isCreate, roomIndex, _) => RoomEnter(r, session, isCreate, roomIndex)
    case RoomLeaveReq(session) => RoomLeave(r, session)
    case RoomChatReq(session, msg) => RoomChat(r, session, msg)
    case EchoReq(session, data) => Answer(r, NONE, [Sent(session, EchoRes(data))])
    case Unregistered(_) => Answer(r, NONE, [])
  }

  /** The answers to a whole sequence of events. */
  datatype Story = Story(roster: Roster, codes: seq<Code>, sent: seq<seq<Sent>>)

  function RespondAll(r: Roster, es: seq<Event>): Story
    decreases |es|
  {
    if es == [] then Story(r, [], [])
    else
      var a := Respond(r, es[0]);
      var rest := RespondAll(a.roster, es[1..]);
      Story(rest.roster, [a.code] + rest.codes, [a.sent] + rest.sent)
  }
}
