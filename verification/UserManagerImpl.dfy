/** UserManager.cpp: the pool, its free deque and the two dictionaries. */
module UserManagerImpl {
  import opened Types
  import opened State
  import opened UserImpl

  class UserManager {
    const patch: Patch
    const pool: seq<User>
    var free: seq<int>
    var bySession: map<int, User>
    var byId: map<Key, User>

    // The manager's part of the server, without lobbies.
    function View(): ServerState
      reads this, pool
    {
      ServerState(UserViews(pool), free, Targets(bySession), Targets(byId), [])
    }

    // The pool as built, with every position and pointer leading into it.
    ghost predicate Valid()
      reads this
    {
      && IsPool(pool) && AllFrom(bySession, pool) && AllFrom(byId, pool)
      && forall j :: 0 <= j < |free| ==> 0 <= free[j] < |pool|
    }

    constructor (p: Patch, cfg: Config)
      ensures patch == p && View() == Init(cfg).(lobbies := [])
      ensures cfg.maxUsers <= 0x8000 ==> Valid()
      ensures forall i :: 0 <= i < |pool| ==> fresh(pool[i])
    {
      var users: seq<User> := [];
      var indices: seq<int> := [];
      for i := 0 to if cfg.maxUsers < 0 then 0 else cfg.maxUsers
        invariant |users| == |indices| == i
        invariant forall j :: 0 <= j < i ==> fresh(users[j]) && users[j].View() == NewUser(j) && indices[j] == j
      {
        var user := new User(i);
        users, indices := users + [user], indices + [i];
      }
      patch, pool, free, bySession, byId := p, users, indices, map[], map[];
      new;
      assert forall j :: 0 <= j < |pool| ==> pool[j].index == pool[j].View().index;
      assert UserViews(pool) == Init(cfg).users && free == Init(cfg).free;
      assert Targets(bySession) == map[] && Targets(byId) == map[];
    }

    method AllocUserObjPoolIndex() returns (u: User?)
      requires Valid()
      modifies this`free
      ensures Valid()
      ensures old(free) == [] ==> u == null && free == []
      ensures old(free) != [] ==> u == pool[old(free)[0]] && free == old(free)[1..]
    {
      if free == [] {
        return null;
      }
      var i := free[0];
      free := free[1..];
      return pool[i];
    }

    method ReleaseUserObjPoolIndex(i: int)
      requires Valid() && 0 <= i < |pool|
      modifies this`free, pool[i]
      ensures Valid() && free == old(free) + [i] && pool[i].View() == old(pool[i].View()).Cleared()
    {
      free := free + [i];
      pool[i].Clear();
    }

    method FindBySession(session: int) returns (u: User?)
      requires Valid()
      ensures if session in bySession then u == bySession[session] && u in pool else u == null
    {
      u := if session in bySession then bySession[session] else null;
    }

    method AddUser(session: int, id: string, buffer: int) returns (code: Code)
      requires Valid()
      modifies this, pool
      ensures Valid() && (View(), code) == old(View()).AddUser(patch, session, id, buffer)
    {
      var key := if patch.keyByText then Text(id) else PacketBuffer(buffer);
      if key in byId {
        return USER_MGR_ID_DUPLICATION;
      }
      var user := AllocUserObjPoolIndex();
      if user == null {
        return USER_MGR_MAX_USER_COUNT;
      }
      user.Set(session, id);
      bySession := Insert(bySession, session, user);
      byId := Insert(byId, key, user);
      OneUserChanged(pool, old(UserViews(pool)), user);
      TargetsInsert(old(bySession), session, user);
      TargetsInsert(old(byId), key, user);
      return NONE;
    }

    method RemoveUser(session: int) returns (code: Code)
      requires Valid()
      modifies this, pool
      ensures Valid() && (View(), code) == old(View()).RemoveUser(patch, session)
    {
      var user := FindBySession(session);
      if user == null {
        return USER_MGR_REMOVE_INVALID_SESSION;
      }
      PositionOf(pool, user);
      var i, id := user.index, user.id;
      bySession := bySession - {if patch.eraseBySession then session else i};
      byId := byId - {if patch.keyByText then Text(id) else LocalCopy};
      TargetsRemove(old(bySession), if patch.eraseBySession then session else i);
      TargetsRemove(old(byId), if patch.keyByText then Text(id) else LocalCopy);
      ReleaseUserObjPoolIndex(i);
      OneUserChanged(pool, old(UserViews(pool)), user);
      return NONE;
    }

    method GetUser(session: int) returns (code: Code, user: User?)
      requires Valid()
      ensures match View().GetUser(session)
              case Missing(c) => code == c != NONE && user == null
              case Found(u) => code == NONE && 0 <= u < |pool| && user == pool[u] && bySession[session] == user
    {
      user := FindBySession(session);
      if user == null {
        return USER_MGR_INVALID_SESSION_INDEX, null;
      }
      PositionOf(pool, user);
      if !user.confirmed {
        return USER_MGR_NOT_CONFIRM_USER, null;
      }
      return NONE, user;
    }
  }
}
