/**
 * The server's data as values. A pointer to a pool entry is the entry's position in the pool, so the
 * dictionaries, the slots and the room lists hold positions.
 */
module State {
  import opened Types

  datatype Domain = DomainNone | DomainLogin | DomainLobby | DomainRoom

  datatype UserState = UserState(index: int, session: int, id: string, confirmed: bool,
                                 domain: Domain, lobby: int, room: int)
  {
    function Cleared(): UserState {
      this.(session := 0, id := "", confirmed := false, domain := DomainNone, lobby := -1, room := -1)
    }

    // Neither index is touched.
    function LoggedIn(newSession: int, newId: string): UserState {
      this.(confirmed := true, domain := DomainLogin, session := newSession, id := newId)
    }

    function EnteredLobby(l: int): UserState {
      this.(lobby := l, domain := DomainLobby)
    }

    // The lobby index stays behind.
    function LeftLobby(): UserState {
      this.(domain := DomainLogin)
    }

    function EnteredRoom(l: int, r: int): UserState {
      this.(lobby := l, room := r, domain := DomainRoom)
    }

    predicate Placed() {
      domain == DomainLobby || domain == DomainRoom
    }
  }

  function NewUser(i: int): UserState {
    UserState(ToShort(i), -1, "", false, DomainNone, -1, -1)
  }

  // The entry a pointer leads to. A pointer outside the pool would lead to no user; none ever arises.
  function UserAt(users: seq<UserState>, u: int): UserState {
    if 0 <= u < |users| then users[u] else NewUser(-1)
  }

  // Position of the first occurrence of x, or the length if there is none.
  function IndexOf(s: seq<int>, x: int): (i: nat)
    ensures i <= |s|
    ensures i < |s| ==> s[i] == x
    ensures x !in s[..i]
    ensures i == |s| <==> x !in s
  {
    if s == [] then 0
    else if s[0] == x then 0
    else
      assert s == [s[0]] + s[1..];
      var j := IndexOf(s[1..], x);
      assert s[..1 + j] == [s[0]] + s[1..][..j];
      1 + j
  }

  // The sequence without the element at position i, as vector::erase leaves it.
  function Erase<T>(s: seq<T>, i: nat): seq<T>
    requires i < |s|
  {
    s[..i] + s[i + 1..]
  }

  datatype RoomState = RoomState(index: int, max: int, used: bool, title: string, members: seq<int>)
  {
    function Cleared(): RoomState {
      this.(used := false, title := "", members := [])
    }

    function Create(t: string): (RoomState, Code) {
      if used then (this, ROOM_ENTER_CREATE_FAIL) else (this.(used := true, title := t), NONE)
    }

    function Enter(u: int): (RoomState, Code) {
      if !used then (this, ROOM_ENTER_NOT_CREATED)
      else if |members| == max then (this, ROOM_ENTER_MEMBER_FULL)
      else (this.(members := members + [u]), NONE)
    }

    function Leave(u: int): (RoomState, Code) {
      if !used then (this, ROOM_LEAVE_NOT_CREATED)
      else
        var i := IndexOf(members, u);
        if i == |members| then (this, ROOM_LEAVE_NOT_MEMBER)
        else
          var rest := Erase(members, i);
          (if rest == [] then Cleared() else this.(members := rest), NONE)
    }

    predicate IsMaster(u: int)
      requires members != []
    {
      members[0] == u
    }
  }

  // First null slot from position i on, or the number of slots if there is none.
  function FirstFree(slots: seq<Option<int>>, i: nat): (k: nat)
    requires i <= |slots|
    ensures i <= k <= |slots|
    ensures forall j :: i <= j < k ==> slots[j].Some?
    ensures k < |slots| ==> slots[k] == None
    decreases |slots| - i
  {
    if i == |slots| || slots[i] == None then i else FirstFree(slots, i + 1)
  }

  // A position before which no slot is null, and that is null unless it is the end.
  lemma {:induction false} FirstNullIsFirstFree(slots: seq<Option<int>>, i: nat, k: nat)
    requires i <= k <= |slots|
    requires (forall j :: i <= j < k ==> slots[j].Some?) && (k < |slots| ==> slots[k] == None)
    ensures FirstFree(slots, i) == k
    decreases k - i
  {
    if i < k {
      FirstNullIsFirstFree(slots, i + 1, k);
    }
  }

  // Whether Lobby::RemoveUser takes slot i for the slot of user u.
  predicate SlotMatches(p: Patch, slots: seq<Option<int>>, i: nat, u: int)
    requires i < |slots|
  {
    slots[i].Some? && (if p.clearByUser then slots[i].value else i) == u
  }

  function FirstMatch(p: Patch, slots: seq<Option<int>>, u: int, i: nat): (k: nat)
    requires i <= |slots|
    ensures i <= k <= |slots|
    ensures forall j :: i <= j < k ==> !SlotMatches(p, slots, j, u)
    ensures k < |slots| ==> SlotMatches(p, slots, k, u)
    decreases |slots| - i
  {
    if i == |slots| || SlotMatches(p, slots, i, u) then i else FirstMatch(p, slots, u, i + 1)
  }

  function ClearSlot(p: Patch, slots: seq<Option<int>>, u: int): seq<Option<int>> {
    var k := FirstMatch(p, slots, u, 0);
    if k == |slots| then slots else slots[k := None]
  }

  function LobbyKey(p: Patch, u: int, id: string): Key {
    if p.keyByText then Text(id) else OwnString(u)
  }

  datatype LobbyEntry = Entered(lobby: LobbyState, code: Code) | NoSlot

  datatype LobbyState = LobbyState(index: int, max: int, slots: seq<Option<int>>,
                                   byIndex: map<int, int>, byId: map<Key, int>, rooms: seq<RoomState>)
  {
    /**
     * NoSlot stands for dereferencing the end iterator when no slot is null. The size check compares unsigned
     * numbers, so a negative maximum would never be reached.
     */
    function Enter(p: Patch, u: int, id: string): LobbyEntry {
      if 0 <= max <= |byIndex| then Entered(this, LOBBY_ENTER_MAX_USER_COUNT)
      else if u in byIndex then Entered(this, LOBBY_ENTER_USER_DUPLICATION)
      else
        var k := FirstFree(slots, 0);
        if k == |slots| then NoSlot
        else Entered(this.(slots := slots[k := Some(u)],
                           byIndex := Insert(byIndex, u, u),
                           byId := Insert(byId, LobbyKey(p, u, id), u)), NONE)
    }

    /** `id` is the ID of the user found under u, if there is one. */
    function Leave(p: Patch, u: int, id: string): (LobbyState, Code) {
      var cleared := this.(slots := ClearSlot(p, slots, u));
      if u !in byIndex then (cleared, LOBBY_LEAVE_USER_INVALID_UNIQUEINDEX)
      else
        var v := byIndex[u];
        (cleared.(byIndex := byIndex - {v}, byId := byId - {LobbyKey(p, v, id)}), NONE)
    }

    function UserCount(p: Patch): int {
      ToShort(if p.countMembers then |byIndex| else |slots|)
    }

    // First unused room from position i on, or the number of rooms.
    function AllocRoom(i: nat): (k: nat)
      requires i <= |rooms|
      ensures i <= k <= |rooms|
      ensures forall j :: i <= j < k ==> rooms[j].used
      ensures k < |rooms| ==> !rooms[k].used
      decreases |rooms| - i
    {
      if i == |rooms| || !rooms[i].used then i else AllocRoom(i + 1)
    }

    predicate HasRoom(r: int) {
      0 <= r < |rooms|
    }
  }

  function NewLobby(i: int, cfg: Config): LobbyState {
    var max := ToShort(cfg.maxLobbyUsers);
    var roomCount := ToShort(cfg.roomsPerLobby);
    LobbyState(ToShort(i), max, seq(if max < 0 then 0 else max, _ => None), map[], map[],
               seq(if roomCount < 0 then 0 else roomCount, r => NewRoom(r, cfg)))
  }

  function NewRoom(r: int, cfg: Config): RoomState {
    RoomState(ToShort(r), ToShort(cfg.maxRoomUsers), false, "", [])
  }

  datatype ServerState = ServerState(users: seq<UserState>, free: seq<int>,
                                     bySession: map<int, int>, byId: map<Key, int>, lobbies: seq<LobbyState>)
  {
    function User(u: int): UserState {
      UserAt(users, u)
    }

    function WithUser(u: int, v: UserState): ServerState {
      if 0 <= u < |users| then this.(users := users[u := v]) else this
    }

    // LobbyManager::GetLobby finds a lobby: the number of lobbies is narrowed to a short.
    predicate HasLobby(l: int) {
      0 <= l < ToShort(|lobbies|)
    }

    function WithLobby(l: int, v: LobbyState): ServerState
      requires 0 <= l < |lobbies|
    {
      this.(lobbies := lobbies[l := v])
    }

    function WithRoom(l: int, r: int, v: RoomState): ServerState
      requires 0 <= l < |lobbies| && lobbies[l].HasRoom(r)
    {
      WithLobby(l, lobbies[l].(rooms := lobbies[l].rooms[r := v]))
    }

    /** UserManager::GetUser */
    function GetUser(session: int): Lookup {
      if session !in bySession then Missing(USER_MGR_INVALID_SESSION_INDEX)
      else if !User(bySession[session]).confirmed then Missing(USER_MGR_NOT_CONFIRM_USER)
      else Found(bySession[session])
    }

    /** UserManager::AddUser */
    function AddUser(p: Patch, session: int, id: string, buffer: int): (ServerState, Code) {
      var key := if p.keyByText then Text(id) else PacketBuffer(buffer);
      if key in byId then (this, USER_MGR_ID_DUPLICATION)
      else if free == [] then (this, USER_MGR_MAX_USER_COUNT)
      else
        var u := free[0];
        (WithUser(u, User(u).LoggedIn(session, id))
         .(free := free[1..], bySession := Insert(bySession, session, u), byId := Insert(byId, key, u)), NONE)
    }

    /** UserManager::RemoveUser */
    function RemoveUser(p: Patch, session: int): (ServerState, Code) {
      if session !in bySession then (this, USER_MGR_REMOVE_INVALID_SESSION)
      else
        var u := bySession[session];
        var i := User(u).index;
        (WithUser(i, User(i).Cleared())
         .(bySession := bySession - {if p.eraseBySession then session else i},
           byId := byId - {if p.keyByText then Text(User(u).id) else LocalCopy},
           free := free + [i]), NONE)
    }

    // Lobby::LeaveUser together with its effect on the user it finds.
    function LeaveLobby(p: Patch, l: int, u: int): (ServerState, Code)
      requires 0 <= l < |lobbies|
    {
      var lobby := lobbies[l];
      var (lobby', code) := lobby.Leave(p, u, if u in lobby.byIndex then User(lobby.byIndex[u]).id else "");
      var s := WithLobby(l, lobby');
      (if u in lobby.byIndex then s.WithUser(lobby.byIndex[u], User(lobby.byIndex[u]).LeftLobby()) else s, code)
    }
  }

  lemma SameRoomSameState(s: ServerState, l: int, r: int)
    requires 0 <= l < |s.lobbies| && s.lobbies[l].HasRoom(r)
    ensures s.WithRoom(l, r, s.lobbies[l].rooms[r]) == s
  {
    assert s.lobbies[l].rooms[r := s.lobbies[l].rooms[r]] == s.lobbies[l].rooms;
    assert s.lobbies[l := s.lobbies[l]] == s.lobbies;
  }

  function Init(cfg: Config): ServerState {
    var n := if cfg.maxUsers < 0 then 0 else cfg.maxUsers;
    ServerState(seq(n, i => NewUser(i)), seq(n, i => i), map[], map[],
                seq(if cfg.lobbyCount < 0 then 0 else cfg.lobbyCount, i => NewLobby(i, cfg)))
  }

  /** Room::SendToAllUser */
  function SendToAll(users: seq<UserState>, members: seq<int>, pass: int, packet: Packet): seq<Sent> {
    if members == [] then []
    else
      var u := UserAt(users, members[0]);
      (if u.index != pass then [Sent(u.session, packet)] else []) + SendToAll(users, members[1..], pass, packet)
  }
}
