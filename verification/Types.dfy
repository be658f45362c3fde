/** Values shared by the model: error codes, packets, requests, and the switches that select a version of the server. */
module Types {

  datatype Option<+T> = None | Some(value: T)

  // Three-valued results of a lookup that reports an error code.
  datatype Lookup = Found(user: int) | Missing(code: Code)

  /** The six places where the server departs from its evident intent; a true field selects the repaired line. */
  datatype Patch = Patch(
    eraseBySession: bool,    // R1: UserManager::RemoveUser erases the session entry by session, not by pool index
    clearByUser: bool,       // R2: Lobby::RemoveUser compares the slot's user, not the slot's number
    keyByText: bool,         // R3: the ID dictionaries are keyed by the text, not by its address
    countMembers: bool,      // R4: Lobby::GetUserCount counts members, not slots
    passByUser: bool,        // R5: Room::NotifyChat skips the sender's user index, not its session index
    notifyIfMember: bool     // R6: closing a session notifies a room only when the user was one of its members
  )

  const AS_WRITTEN := Patch(false, false, false, false, false, false)

  const REPAIRED := Patch(true, true, true, true, true, true)

  datatype Code =
    | NONE
    | USER_MGR_ID_DUPLICATION
    | USER_MGR_MAX_USER_COUNT
    | USER_MGR_INVALID_SESSION_INDEX
    | USER_MGR_NOT_CONFIRM_USER
    | USER_MGR_REMOVE_INVALID_SESSION
    | LOBBY_LIST_INVALID_DOMAIN
    | LOBBY_ENTER_INVALID_DOMAIN
    | LOBBY_ENTER_INVALID_LOBBY_INDEX
    | LOBBY_ENTER_USER_DUPLICATION
    | LOBBY_ENTER_MAX_USER_COUNT
    | LOBBY_LEAVE_INVALID_DOMAIN
    | LOBBY_LEAVE_INVALID_LOBBY_INDEX
    | LOBBY_LEAVE_USER_INVALID_UNIQUEINDEX
    | ROOM_ENTER_INVALID_DOMAIN
    | ROOM_ENTER_INVALID_LOBBY_INDEX
    | ROOM_ENTER_INVALID_ROOM_INDEX
    | ROOM_ENTER_CREATE_FAIL
    | ROOM_ENTER_NOT_CREATED
    | ROOM_ENTER_MEMBER_FULL
    | ROOM_ENTER_EMPTY_ROOM
    | ROOM_LEAVE_INVALID_DOMAIN
    | ROOM_LEAVE_NOT_CREATED
    | ROOM_LEAVE_NOT_MEMBER
    | ROOM_CHAT_INVALID_DOMAIN
    | ROOM_CHAT_INVALID_LOBBY_INDEX
    | ROOM_CHAT_INVALID_ROOM_INDEX

  datatype LobbyInfo = LobbyInfo(lobby: int, userCount: int, maxUserCount: int)

  /** Outgoing packets. A response keeps the packet id the code sends it under, which is not always its own. */
  datatype Packet =
    | LoginRes(code: Code)
    | LobbyListRes(code: Code, lobbies: seq<LobbyInfo>)
    | LobbyEnterRes(code: Code, limits: Option<(int, int)>)
    | LobbyLeaveRes(code: Code)
    | RoomEnterRes(code: Code)
    | RoomChatRes(code: Code)
    | EchoRes(data: string)
    | NewUserNtf(id: string)
    | LeaveUserNtf(id: string)
    | ChatNtf(id: string, msg: string)

  // One call of SendData.
  datatype Sent = Sent(session: int, packet: Packet)

  /** Incoming packets and network notifications. `buffer` is where in the receive buffers the login ID lies. */
  datatype Event =
    | Connect(session: int)
    | Close(session: int)
    | LoginReq(session: int, id: string, buffer: int)
    | LobbyListReq(session: int)
    | LobbyEnterReq(session: int, lobbyId: int)
    | LobbyLeaveReq(session: int)
    | RoomEnterReq(session: int, isCreate: bool, roomIndex: int, title: string)
    | RoomLeaveReq(session: int)
    | RoomChatReq(session: int, msg: string)
    | EchoReq(session: int, data: string)
    | Unregistered(session: int)

  /**
   * A key of an ID dictionary. The original keys are character addresses, told apart here by the object
   * they point into: two objects alive at the same time never share an address. `Text` is the repaired key.
   */
  datatype Key =
    | PacketBuffer(offset: int)  // a login packet inside a receive buffer
    | OwnString(user: int)       // the ID string stored in a pool entry
    | LocalCopy                  // a string local to the running function
    | Text(text: string)

  datatype Config = Config(maxUsers: int, lobbyCount: int, maxLobbyUsers: int, roomsPerLobby: int, maxRoomUsers: int)

  // Conversion of an int to a 16-bit short.
  function ToShort(x: int): int {
    (x + 0x8000) % 0x1_0000 - 0x8000
  }

  // unordered_map::insert keeps the value of a key that is already present.
  function Insert<K, V>(m: map<K, V>, k: K, v: V): map<K, V> {
    if k in m then m else m[k := v]
  }

  ghost predicate NoDup<T(!new)>(s: seq<T>) {
    forall i, j :: 0 <= i < j < |s| ==> s[i] != s[j]
  }
}
