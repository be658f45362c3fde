/** The network's outgoing side and the user objects of the pool. */
module UserImpl {
  import opened Types
  import opened State

  /** The network as the handlers see it: a log of what has been handed to it. */
  class TcpNet {
    var log: seq<Sent>

    constructor ()
      ensures log == []
    {
      log := [];
    }

    method SendData(session: int, packet: Packet)
      modifies this
      ensures log == old(log) + [Sent(session, packet)]
    {
      log := log + [Sent(session, packet)];
    }
  }

  class User {
    const index: int
    var session: int
    var id: string
    var confirmed: bool
    var domain: Domain
    var lobby: int
    var room: int

    function View(): UserState
      reads this
    {
      UserState(index, session, id, confirmed, domain, lobby, room)
    }

    constructor (i: int)
      ensures View() == NewUser(i)
      ensures !confirmed && domain == DomainNone && lobby == -1 && room == -1
    {
      index := ToShort(i);
      session, id, confirmed := -1, "", false;
      domain, lobby, room := DomainNone, -1, -1;
    }

    method Clear()
      modifies this
      ensures View() == old(View()).Cleared()
      ensures session == 0 && id == "" && !confirmed && domain == DomainNone && lobby == -1 && room == -1
    {
      session, id, confirmed := 0, "", false;
      domain := DomainNone;
      lobby, room := -1, -1;
    }

    method Set(newSession: int, newId: string)
      modifies this
      ensures View() == old(View()).LoggedIn(newSession, newId)
      ensures confirmed && domain == DomainLogin && session == newSession && id == newId
      ensures lobby == old(lobby) && room == old(room)
    {
      confirmed, domain := true, DomainLogin;
      session, id := newSession, newId;
    }

    method EnterLobby(l: int)
      modifies this
      ensures View() == old(View()).EnteredLobby(l)
      ensures lobby == l && domain == DomainLobby && room == old(room)
    {
      lobby, domain := l, DomainLobby;
    }

    method LeaveLobby()
      modifies this
      ensures View() == old(View()).LeftLobby()
      ensures domain == DomainLogin && lobby == old(lobby) && room == old(room)
    {
      domain := DomainLogin;
    }

    method EnterRoom(l: int, r: int)
      modifies this
      ensures View() == old(View()).EnteredRoom(l, r)
      ensures lobby == l && room == r && domain == DomainRoom
    {
      lobby, room, domain := l, r, DomainRoom;
    }
  }

  function UserViews(users: seq<User>): seq<UserState>
    reads users
  {
    seq(|users|, i requires 0 <= i < |users| reads users => users[i].View())
  }

  // Pointers as pool positions.
  function Positions(users: seq<User>): seq<int> {
    seq(|users|, i requires 0 <= i < |users| => users[i].index)
  }

  function Targets<K>(m: map<K, User>): map<K, int> {
    map k | k in m :: m[k].index
  }

  lemma TargetsInsert<K>(m: map<K, User>, k: K, u: User)
    ensures Targets(Insert(m, k, u)) == Insert(Targets(m), k, u.index)
  {
    assert Targets(Insert(m, k, u)).Keys == Insert(Targets(m), k, u.index).Keys;
  }

  lemma TargetsRemove<K>(m: map<K, User>, k: K)
    ensures Targets(m - {k}) == Targets(m) - {k}
  {
  }

  // A pool whose entries sit at their own index, so that a pointer and a position say the same.
  ghost predicate IsPool(pool: seq<User>) {
    |pool| <= 0x8000 && forall i :: 0 <= i < |pool| ==> pool[i].index == i
  }

  ghost predicate AllFrom<K(!new)>(m: map<K, User>, pool: seq<User>) {
    forall k :: k in m ==> m[k] in pool
  }

  lemma PositionOf(pool: seq<User>, u: User)
    requires IsPool(pool) && u in pool
    ensures 0 <= u.index < |pool| && pool[u.index] == u
  {
  }

  // One object of the pool has changed since its views were `before`.
  lemma OneUserChanged(pool: seq<User>, before: seq<UserState>, u: User)
    requires IsPool(pool) && u in pool && |before| == |pool|
    requires forall i :: 0 <= i < |pool| && pool[i] != u ==> pool[i].View() == before[i]
    ensures UserViews(pool) == before[u.index := u.View()]
  {
    PositionOf(pool, u);
    forall i | 0 <= i < |pool| ensures UserViews(pool)[i] == before[u.index := u.View()][i] {
      assert pool[i] != u ==> pool[i].View() == before[i];
    }
  }
}
