/** Lobby.cpp and LobbyManager.cpp: slots, dictionaries and rooms, and the list of lobbies. */
module LobbyImpl {
  import opened Types
  import opened State
  import Handlers
  import opened UserImpl
  import opened RoomImpl

  // What a call that may run into undefined behaviour reports.
  datatype Reply = Returned(code: Code) | Crashed

  function SlotView(u: User?): Option<int> {
    if u == null then None else Some(u.index)
  }

  function SlotViews(slots: seq<User?>): seq<Option<int>> {
    seq(|slots|, i requires 0 <= i < |slots| => SlotView(slots[i]))
  }

  lemma {:induction false} FirstHitIsFirstMatch(p: Patch, slots: seq<Option<int>>, u: int, i: nat, k: nat)
    requires i <= k <= |slots|
    requires (forall j :: i <= j < k ==> !SlotMatches(p, slots, j, u)) && (k < |slots| ==> SlotMatches(p, slots, k, u))
    ensures FirstMatch(p, slots, u, i) == k
    decreases k - i
  {
    if i < k {
      FirstHitIsFirstMatch(p, slots, u, i + 1, k);
    }
  }

  lemma {:induction false} FirstUnusedIsAllocRoom(lobby: LobbyState, i: nat, k: nat)
    requires i <= k <= |lobby.rooms|
    requires (forall j :: i <= j < k ==> lobby.rooms[j].used) && (k < |lobby.rooms| ==> !lobby.rooms[k].used)
    ensures lobby.AllocRoom(i) == k
    decreases k - i
  {
    if i < k {
      FirstUnusedIsAllocRoom(lobby, i + 1, k);
    }
  }

  class Lobby {
    const patch: Patch
    const index: int
    const max: int
    const rooms: seq<Room>
    var slots: seq<User?>
    var byIndex: map<int, User>
    var byId: map<Key, User>

    function View(): LobbyState
      reads this, rooms
    {
      LobbyState(index, max, SlotViews(slots), Targets(byIndex), Targets(byId), RoomViews(rooms))
    }

    // The rooms are distinct objects, of this lobby, and every pointer leads into the pool.
    ghost predicate Valid(pool: seq<User>)
      reads this, rooms
    {
      && (forall r :: 0 <= r < |rooms| ==> rooms[r].home == index && rooms[r].index == r)
      && (forall r :: 0 <= r < |rooms| ==> forall u :: u in rooms[r].users ==> u in pool)
      && AllFrom(byIndex, pool) && AllFrom(byId, pool)
    }

    constructor (p: Patch, l: int, cfg: Config, network: TcpNet)
      ensures View() == NewLobby(l, cfg) && patch == p
      ensures Valid([]) && forall r :: 0 <= r < |rooms| ==> fresh(rooms[r]) && rooms[r].net == network
      ensures byIndex == map[] && byId == map[]
    {
      var maxUsers := ToShort(cfg.maxLobbyUsers);
      var empty: seq<User?> := [];
      for i := 0 to if maxUsers < 0 then 0 else maxUsers
        invariant |empty| == i && forall j :: 0 <= j < i ==> empty[j] == null
      {
        empty := empty + [null];
      }
      var roomCount := ToShort(cfg.roomsPerLobby);
      var list: seq<Room> := [];
      for r := 0 to if roomCount < 0 then 0 else roomCount
        invariant |list| == r
        invariant forall j :: 0 <= j < r ==>
          && fresh(list[j]) && list[j].View() == NewRoom(j, cfg) && list[j].users == []
          && list[j].home == ToShort(l) && list[j].net == network
      {
        var room := new Room(r, ToShort(cfg.maxRoomUsers), network, ToShort(l));
        list := list + [room];
      }
      patch, index, max, rooms := p, ToShort(l), maxUsers, list;
      slots, byIndex, byId := empty, map[], map[];
      new;
      assert SlotViews(slots) == NewLobby(l, cfg).slots;
      assert RoomViews(rooms) == NewLobby(l, cfg).rooms;
      assert Targets(byIndex) == map[] && Targets(byId) == map[];
    }

    method FindUser(userIndex: int) returns (u: User?)
      ensures u == if userIndex in byIndex then byIndex[userIndex] else null
    {
      u := if userIndex in byIndex then byIndex[userIndex] else null;
    }

    /** `ok` is false where the original dereferences the end of the slot array. */
    method AddUser(u: User) returns (ok: bool)
      modifies this`slots
      ensures var k := FirstFree(old(SlotViews(slots)), 0);
              && ok == (k < |old(slots)|)
              && SlotViews(slots) == if ok then old(SlotViews(slots))[k := Some(u.index)] else old(SlotViews(slots))
    {
      var i := 0;
      while i < |slots| && slots[i] != null
        invariant 0 <= i <= |slots|
        invariant forall j :: 0 <= j < i ==> SlotViews(slots)[j].Some?
      {
        i := i + 1;
      }
      FirstNullIsFirstFree(SlotViews(slots), 0, i);
      if i == |slots| {
        return false;
      }
      ghost var was := SlotViews(slots);
      slots := slots[i := u];
      assert SlotViews(slots) == was[i := Some(u.index)];
      return true;
    }

    method RemoveUser(userIndex: int)
      modifies this`slots
      ensures SlotViews(slots) == ClearSlot(patch, old(SlotViews(slots)), userIndex)
    {
      var i := 0;
      while i < |slots| && !(slots[i] != null && (if patch.clearByUser then slots[i].index else i) == userIndex)
        invariant 0 <= i <= |slots|
        invariant forall j :: 0 <= j < i ==> !SlotMatches(patch, SlotViews(slots), j, userIndex)
      {
        i := i + 1;
      }
      FirstHitIsFirstMatch(patch, SlotViews(slots), userIndex, 0, i);
      if i == |slots| {
        return;
      }
      ghost var was := SlotViews(slots);
      slots := slots[i := null];
      assert SlotViews(slots) == was[i := None];
    }

    method EnterUser(u: User, ghost pool: seq<User>) returns (r: Reply)
      requires Valid(pool) && u in pool
      modifies this, u
      ensures match old(View()).Enter(patch, u.index, old(u.id))
              case NoSlot => r == Crashed
              case Entered(lobby, code) =>
                && r == Returned(code) && View() == lobby
                && u.View() == if code == NONE then old(u.View()).EnteredLobby(index) else old(u.View())
      ensures Valid(pool)
    {
      assert Targets(byIndex).Keys == byIndex.Keys;
      if 0 <= max <= |byIndex| {
        return Returned(LOBBY_ENTER_MAX_USER_COUNT);
      }
      var found := FindUser(u.index);
      if found != null {
        return Returned(LOBBY_ENTER_USER_DUPLICATION);
      }
      var ok := AddUser(u);
      if !ok {
        return Crashed;
      }
      u.EnterLobby(index);
      Register(u, pool);
      return Returned(NONE);
    }

    // The user's entries in both dictionaries.
    method Register(u: User, ghost pool: seq<User>)
      requires Valid(pool) && u in pool
      modifies this`byIndex, this`byId
      ensures View() == old(View()).(byIndex := Insert(old(View()).byIndex, u.index, u.index),
                                     byId := Insert(old(View()).byId, LobbyKey(patch, u.index, u.id), u.index))
      ensures Valid(pool)
    {
      var key := LobbyKey(patch, u.index, u.id);
      TargetsInsert(byIndex, u.index, u);
      TargetsInsert(byId, key, u);
      byIndex := Insert(byIndex, u.index, u);
      byId := Insert(byId, key, u);
    }

    method LeaveUser(userIndex: int, ghost pool: seq<User>) returns (code: Code)
      requires Valid(pool)
      modifies this, if userIndex in byIndex then {byIndex[userIndex]} else {}
      ensures var found := userIndex in old(byIndex);
              && (View(), code) == old(View()).Leave(patch, userIndex, if found then old(byIndex[userIndex].id) else "")
              && (found ==> old(byIndex[userIndex]).View() == old(byIndex[userIndex].View()).LeftLobby())
      ensures Valid(pool)
    {
      RemoveUser(userIndex);
      var u := FindUser(userIndex);
      if u == null {
        return LOBBY_LEAVE_USER_INVALID_UNIQUEINDEX;
      }
      u.LeaveLobby();
      var key := LobbyKey(patch, u.index, u.id);
      byIndex := byIndex - {u.index};
      byId := byId - {key};
      TargetsRemove(old(byIndex), u.index);
      TargetsRemove(old(byId), key);
      return NONE;
    }

    method GetUserCount() returns (n: int)
      ensures n == View().UserCount(patch)
    {
      assert Targets(byIndex).Keys == byIndex.Keys;
      n := ToShort(if patch.countMembers then |byIndex| else |slots|);
    }

    method AllocRoom() returns (room: Room?)
      ensures var k := View().AllocRoom(0); if k < |rooms| then room == rooms[k] else room == null
    {
      var i := 0;
      while i < |rooms|
        invariant 0 <= i <= |rooms|
        invariant forall j :: 0 <= j < i ==> View().rooms[j].used
      {
        if !rooms[i].used {
          FirstUnusedIsAllocRoom(View(), 0, i);
          return rooms[i];
        }
        i := i + 1;
      }
      FirstUnusedIsAllocRoom(View(), 0, i);
      return null;
    }

    method GetRoom(r: int) returns (room: Room?)
      ensures if View().HasRoom(r) then room == rooms[r] else room == null
    {
      room := if r < 0 || r >= |rooms| then null else rooms[r];
    }
  }

  // All rooms of these lobbies.
  ghost function RoomsIn(lobbies: seq<Lobby>): set<Room> {
    set l, r | 0 <= l < |lobbies| && 0 <= r < |lobbies[l].rooms| :: lobbies[l].rooms[r]
  }

  function LobbyViews(lobbies: seq<Lobby>): seq<LobbyState>
    reads lobbies, set l, r | 0 <= l < |lobbies| && 0 <= r < |lobbies[l].rooms| :: lobbies[l].rooms[r]
  {
    seq(|lobbies|, l requires 0 <= l < |lobbies|
      reads lobbies, set l, r | 0 <= l < |lobbies| && 0 <= r < |lobbies[l].rooms| :: lobbies[l].rooms[r]
      => lobbies[l].View())
  }

  class LobbyManager {
    const patch: Patch
    const net: TcpNet
    const lobbies: seq<Lobby>

    constructor (p: Patch, cfg: Config, network: TcpNet)
      ensures patch == p && net == network && LobbyViews(lobbies) == Init(cfg).lobbies
      ensures cfg.lobbyCount < 0x8000 ==> LobbiesValid(lobbies, [], p, network)
      ensures forall l :: 0 <= l < |lobbies| ==> fresh(lobbies[l])
      ensures forall room :: room in RoomsIn(lobbies) ==> fresh(room)
    {
      var list: seq<Lobby> := [];
      for i := 0 to if cfg.lobbyCount < 0 then 0 else cfg.lobbyCount
        invariant |list| == i
        invariant forall l :: 0 <= l < i ==>
          && fresh(list[l]) && list[l].View() == NewLobby(l, cfg)
          && (l < 0x8000 ==> LobbyValid(list[l], l, [], p, network))
          && forall r :: 0 <= r < |list[l].rooms| ==> fresh(list[l].rooms[r])
      {
        var lobby := new Lobby(p, i, cfg, network);
        assert lobby.index == lobby.View().index;
        list := list + [lobby];
      }
      patch, net, lobbies := p, network, list;
      new;
      assert LobbyViews(lobbies) == Init(cfg).lobbies;
    }

    method GetLobby(lobbyId: int) returns (lobby: Lobby?)
      ensures if 0 <= lobbyId < ToShort(|lobbies|) then lobbyId < |lobbies| && lobby == lobbies[lobbyId] else lobby == null
    {
      lobby := if lobbyId < 0 || lobbyId >= ToShort(|lobbies|) then null else lobbies[lobbyId];
    }

    method SendLobbyListInfo(session: int)
      requires forall l :: 0 <= l < |lobbies| ==> lobbies[l].patch == patch
      modifies net
      ensures net.log == old(net.log) + [Sent(session, LobbyListRes(NONE, Handlers.LobbyInfos(patch, LobbyViews(lobbies))))]
    {
      var infos: seq<LobbyInfo> := [];
      for i := 0 to |lobbies|
        invariant net.log == old(net.log)
        invariant infos == Handlers.LobbyInfos(patch, LobbyViews(lobbies))[..i]
      {
        var n := lobbies[i].GetUserCount();
        infos := infos + [LobbyInfo(lobbies[i].index, n, lobbies[i].max)];
        assert Handlers.LobbyInfos(patch, LobbyViews(lobbies))[i] == infos[i];
      }
      assert infos == Handlers.LobbyInfos(patch, LobbyViews(lobbies));
      ghost var views := LobbyViews(lobbies);
      net.SendData(session, LobbyListRes(NONE, infos));
      assert LobbyViews(lobbies) == views;
    }
  }

  ghost predicate LobbyValid(lobby: Lobby, l: int, pool: seq<User>, p: Patch, net: TcpNet)
    reads lobby, lobby.rooms
  {
    lobby.index == l && lobby.patch == p && lobby.Valid(pool)
    && forall r :: 0 <= r < |lobby.rooms| ==> lobby.rooms[r].net == net
  }

  // Lobbies know their positions, so they and their rooms are all distinct objects.
  ghost predicate LobbiesValid(lobbies: seq<Lobby>, pool: seq<User>, p: Patch, net: TcpNet)
    reads lobbies, set l, r | 0 <= l < |lobbies| && 0 <= r < |lobbies[l].rooms| :: lobbies[l].rooms[r]
  {
    |lobbies| < 0x8000 && forall l :: 0 <= l < |lobbies| ==> LobbyValid(lobbies[l], l, pool, p, net)
  }
}
