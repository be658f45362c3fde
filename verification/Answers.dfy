/**
 * What every request comes to, from any state with the core invariant and whichever lines are repaired: the code, the
 * packets and the whole state afterwards, in terms of the users' own records.
 */
module Answers {
  import opened Types
  import opened State
  import opened Handlers
  import opened Invariant
  import Closing
  import Reachable

  /** A session is unknown if it has no entry, idle if its entry is a free one, and otherwise has a confirmed user. */
  lemma LookupIsExact(s: ServerState, session: int)
    requires Inv(s)
    ensures s.GetUser(session) == Missing(USER_MGR_INVALID_SESSION_INDEX) <==> session !in s.bySession
    ensures s.GetUser(session) == Missing(USER_MGR_NOT_CONFIRM_USER) <==>
            session in s.bySession && s.bySession[session] in s.free
    ensures s.GetUser(session).Found? <==> session in s.bySession && s.bySession[session] !in s.free
    ensures s.GetUser(session).Found? ==>
              var u := s.bySession[session];
              && s.GetUser(session) == Found(u) && 0 <= u < |s.users|
              && UserInv(s.users, s.free, u) && s.users[u].confirmed && PlaceExists(s.users[u], s.lobbies)
  {
    if session in s.bySession {
      assert UserInv(s.users, s.free, s.bySession[session]);
      assert PlaceExists(s.users[s.bySession[session]], s.lobbies);
    }
  }

  // The requests that look up the user of their session.
  predicate LooksUp(e: Event) {
    e.LobbyListReq? || e.LobbyEnterReq? || e.LobbyLeaveReq? || e.RoomEnterReq? || e.RoomLeaveReq? || e.RoomChatReq?
  }

  // The response to a request that is refused with a code.
  function Refusal(e: Event, code: Code): Packet
    requires LooksUp(e)
  {
    match e
    case LobbyListReq(_) => LobbyListRes(code, [])
    case LobbyEnterReq(_, _) => LobbyEnterRes(code, None)
    case LobbyLeaveReq(_) => LobbyLeaveRes(code)
    case RoomEnterReq(_, _, _, _) => RoomEnterRes(code)
    case RoomLeaveReq(_) => RoomEnterRes(code)
    case RoomChatReq(_, _) => RoomChatRes(code)
  }

  // The request changes nothing and is answered to its own session with this code.
  ghost predicate RefusedWith(p: Patch, s: ServerState, e: Event, code: Code)
    requires LooksUp(e)
  {
    Step(p, s, e) == Done(s, code, [Sent(e.session, Refusal(e, code))])
  }

  /**
   * A request of a session without a confirmed user changes nothing and gets one response, which tells an unknown
   * session from an idle one. Only LobbyEnter returns another code than it sends.
   */
  lemma StrangersAreTurnedAway(p: Patch, s: ServerState, e: Event)
    requires Inv(s) && LooksUp(e) && (e.session in s.bySession ==> s.bySession[e.session] in s.free)
    ensures var code := if e.session !in s.bySession then USER_MGR_INVALID_SESSION_INDEX else USER_MGR_NOT_CONFIRM_USER;
            Step(p, s, e) == Done(s, if e.LobbyEnterReq? then LOBBY_ENTER_INVALID_DOMAIN else code,
                                  [Sent(e.session, Refusal(e, code))])
  {
    LookupIsExact(s, e.session);
  }

  // Log in

  /**
   * Login: refused exactly when the key is taken, or else all entries are in use; otherwise the first free entry
   * becomes the session's, but a session that has an entry keeps leading to that one.
   */
  lemma LoginAnswer(p: Patch, s: ServerState, session: int, id: string, buffer: int)
    requires Inv(s)
    ensures var key := if p.keyByText then Text(id) else PacketBuffer(buffer);
            var code := if key in s.byId then USER_MGR_ID_DUPLICATION
                        else if forall u :: 0 <= u < |s.users| ==> s.users[u].confirmed then USER_MGR_MAX_USER_COUNT
                        else NONE;
            && (code == NONE ==> s.free != [] && 0 <= s.free[0] < |s.users|)
            && Step(p, s, LoginReq(session, id, buffer)) ==
               Done(if code != NONE then s
                    else ServerState(s.users[s.free[0] := UserState(s.free[0], session, id, true, DomainLogin, -1, -1)],
                                     s.free[1..],
                                     if session in s.bySession then s.bySession else s.bySession[session := s.free[0]],
                                     s.byId[key := s.free[0]], s.lobbies),
                    code, [Sent(session, LoginRes(code))])
  {
    if s.free == [] {
      forall u | 0 <= u < |s.users| ensures s.users[u].confirmed {
        assert UserInv(s.users, s.free, u);
      }
    } else {
      assert UserInv(s.users, s.free, s.free[0]) && !s.users[s.free[0]].confirmed;
    }
  }

  // Lobbies

  // The users that say they are in lobby l.
  function MembersOf(s: ServerState, l: int): set<int> {
    set u | 0 <= u < |s.users| && s.users[u].Placed() && s.users[u].lobby == l
  }

  lemma MembersAreListed(s: ServerState, l: int)
    requires Inv(s) && 0 <= l < |s.lobbies|
    ensures MembersOf(s, l) == s.lobbies[l].byIndex.Keys && |s.lobbies[l].byIndex| == |MembersOf(s, l)|
    ensures LobbyShape(s.lobbies[l]) && s.lobbies[l].index == l && |MembersOf(s, l)| <= s.lobbies[l].max
  {
    assert LobbyShape(s.lobbies[l]) && MembersAgree(s.users, s.lobbies[l], l);
    assert |s.lobbies[l].byIndex.Keys| == |s.lobbies[l].byIndex|;
  }

  /** Lobby list: for a user at LOGIN every lobby in order, with its slots or, with R4 repaired, its members. */
  lemma LobbyListAnswer(p: Patch, s: ServerState, session: int, u: int)
    requires Inv(s) && s.GetUser(session) == Found(u)
    ensures s.users[u].domain != DomainLogin ==> RefusedWith(p, s, LobbyListReq(session), LOBBY_LIST_INVALID_DOMAIN)
    ensures s.users[u].domain == DomainLogin ==>
              Step(p, s, LobbyListReq(session)) ==
              Done(s, NONE, [Sent(session, LobbyListRes(NONE, seq(|s.lobbies|, l requires 0 <= l < |s.lobbies| =>
                LobbyInfo(l, ToShort(if p.countMembers then |MembersOf(s, l)| else s.lobbies[l].max), s.lobbies[l].max))))])
  {
    LookupIsExact(s, session);
    var infos := seq(|s.lobbies|, l requires 0 <= l < |s.lobbies| =>
      LobbyInfo(l, ToShort(if p.countMembers then |MembersOf(s, l)| else s.lobbies[l].max), s.lobbies[l].max));
    forall l | 0 <= l < |s.lobbies| ensures LobbyInfos(p, s.lobbies)[l] == infos[l] {
      MembersAreListed(s, l);
    }
    assert LobbyInfos(p, s.lobbies) == infos;
  }

  // Slot k is the first null one.
  ghost predicate FirstNull(slots: seq<Option<int>>, k: int) {
    0 <= k < |slots| && slots[k] == None && forall j :: 0 <= j < k ==> slots[j] != None
  }

  // Lobby l once user u has taken slot k.
  function LobbyWith(p: Patch, s: ServerState, l: int, u: int, k: int): LobbyState
    requires 0 <= l < |s.lobbies| && 0 <= k < |s.lobbies[l].slots| && 0 <= u < |s.users|
  {
    var a := s.lobbies[l];
    var key := if p.keyByText then Text(s.users[u].id) else OwnString(u);
    a.(slots := a.slots[k := Some(u)], byIndex := a.byIndex[u := u],
       byId := if key in a.byId then a.byId else a.byId[key := u])
  }

  /**
   * Lobby enter: refused outside LOGIN, for a lobby that does not exist, and when as many users are there as it
   * admits; undefined when no slot is null; otherwise the user takes the first null slot and both dictionary entries.
   */
  lemma LobbyEnterAnswer(p: Patch, s: ServerState, session: int, l: int, u: int)
    requires Inv(s) && s.GetUser(session) == Found(u)
    ensures s.users[u].domain != DomainLogin ==> RefusedWith(p, s, LobbyEnterReq(session, l), LOBBY_ENTER_INVALID_DOMAIN)
    ensures s.users[u].domain == DomainLogin && !(0 <= l < |s.lobbies|) ==>
              RefusedWith(p, s, LobbyEnterReq(session, l), LOBBY_ENTER_INVALID_LOBBY_INDEX)
    ensures s.users[u].domain == DomainLogin && 0 <= l < |s.lobbies| && |MembersOf(s, l)| == s.lobbies[l].max ==>
              RefusedWith(p, s, LobbyEnterReq(session, l), LOBBY_ENTER_MAX_USER_COUNT)
    ensures s.users[u].domain == DomainLogin && 0 <= l < |s.lobbies| && |MembersOf(s, l)| < s.lobbies[l].max ==>
              && (None !in s.lobbies[l].slots ==> Step(p, s, LobbyEnterReq(session, l)) == Undefined)
              && forall k :: FirstNull(s.lobbies[l].slots, k) ==>
                   Step(p, s, LobbyEnterReq(session, l)) ==
                   Done(s.(users := s.users[u := s.users[u].(domain := DomainLobby, lobby := l)],
                           lobbies := s.lobbies[l := LobbyWith(p, s, l, u, k)]), NONE,
                        [Sent(session, LobbyEnterRes(NONE, Some((s.lobbies[l].max, |s.lobbies[l].rooms|))))])
  {
    LookupIsExact(s, session);
    if 0 <= l < |s.lobbies| {
      MembersAreListed(s, l);
      if s.users[u].domain == DomainLogin && |MembersOf(s, l)| < s.lobbies[l].max {
        EnterAnyLobby(p, s, session, l, u);
      }
    }
  }

  lemma EnterAnyLobby(p: Patch, s: ServerState, session: int, l: int, u: int)
    requires Inv(s) && s.GetUser(session) == Found(u) && 0 <= u < |s.users| && s.users[u].index == u
    requires 0 <= l < |s.lobbies| && s.users[u].domain == DomainLogin && |s.lobbies[l].byIndex| < s.lobbies[l].max
    ensures None !in s.lobbies[l].slots ==> LobbyEnter(p, s, session, l) == Undefined
    ensures forall k :: FirstNull(s.lobbies[l].slots, k) ==>
              LobbyEnter(p, s, session, l) ==
              Done(s.(users := s.users[u := s.users[u].(domain := DomainLobby, lobby := l)],
                      lobbies := s.lobbies[l := LobbyWith(p, s, l, u, k)]), NONE,
                   [Sent(session, LobbyEnterRes(NONE, Some((s.lobbies[l].max, |s.lobbies[l].rooms|))))])
  {
    var slots := s.lobbies[l].slots;
    assert LobbyShape(s.lobbies[l]) && MembersAgree(s.users, s.lobbies[l], l) && u !in s.lobbies[l].byIndex;
    assert LobbyEnter(p, s, session, l) == AdmitToLobby(p, s, session, u, l);
    if None !in slots {
      assert FirstFree(slots, 0) == |slots|;
    }
    forall k | FirstNull(slots, k)
      ensures LobbyEnter(p, s, session, l) ==
              Done(s.(users := s.users[u := s.users[u].(domain := DomainLobby, lobby := l)],
                      lobbies := s.lobbies[l := LobbyWith(p, s, l, u, k)]), NONE,
                   [Sent(session, LobbyEnterRes(NONE, Some((s.lobbies[l].max, |s.lobbies[l].rooms|))))])
    {
      FirstNullIsFirstFree(slots, 0, k);
    }
  }

  // Whether slot i goes when user u leaves: the slot of that number as written, the first that holds u repaired.
  ghost predicate SlotGoes(p: Patch, slots: seq<Option<int>>, i: int, u: int)
    requires 0 <= i < |slots|
  {
    if p.clearByUser then slots[i] == Some(u) && forall j :: 0 <= j < i ==> slots[j] != Some(u) else i == u
  }

  // Slots b are slots a without that of user u.
  ghost predicate SlotGone(p: Patch, a: seq<Option<int>>, b: seq<Option<int>>, u: int) {
    |b| == |a| && forall i :: 0 <= i < |a| ==> b[i] == if SlotGoes(p, a, i, u) then None else a[i]
  }

  lemma OneSlotGoes(p: Patch, slots: seq<Option<int>>, u: int)
    ensures SlotGone(p, slots, ClearSlot(p, slots, u), u)
  {
    var k := FirstMatch(p, slots, u, 0);
    forall i | 0 <= i < |slots| ensures ClearSlot(p, slots, u)[i] == if SlotGoes(p, slots, i, u) then None else slots[i] {
      if p.clearByUser {
        assert forall j :: 0 <= j < |slots| ==> (SlotMatches(p, slots, j, u) <==> slots[j] == Some(u));
      } else if 0 <= u < |slots| && slots[u].Some? {
        assert SlotMatches(p, slots, u, u);
      }
    }
  }

  /** Lobby b is lobby a when user u has left it, member or not, with these rooms. */
  ghost predicate LobbyLeft(p: Patch, s: ServerState, a: LobbyState, b: LobbyState, u: int)
    requires 0 <= u < |s.users|
  {
    && b.index == a.index && b.max == a.max && SlotGone(p, a.slots, b.slots, u)
    && b.byIndex == a.byIndex - {u}
    && b.byId == if u in a.byIndex then a.byId - {if p.keyByText then Text(s.users[u].id) else OwnString(u)} else a.byId
  }

  /** Lobby leave: from LOBBY, and from there always. */
  lemma LobbyLeaveAnswer(p: Patch, s: ServerState, session: int, u: int)
    requires Inv(s) && s.GetUser(session) == Found(u)
    ensures s.users[u].domain != DomainLobby ==> RefusedWith(p, s, LobbyLeaveReq(session), LOBBY_LEAVE_INVALID_DOMAIN)
    ensures s.users[u].domain == DomainLobby ==>
              var l, o := s.users[u].lobby, Step(p, s, LobbyLeaveReq(session));
              && 0 <= l < |s.lobbies| && o.Done? && o.code == NONE && o.sent == [Sent(session, LobbyLeaveRes(NONE))]
              && |o.state.lobbies| == |s.lobbies|
              && LobbyLeft(p, s, s.lobbies[l], o.state.lobbies[l], u) && o.state.lobbies[l].rooms == s.lobbies[l].rooms
              && o.state == s.(users := s.users[u := s.users[u].(domain := DomainLogin)],
                               lobbies := s.lobbies[l := o.state.lobbies[l]])
  {
    LookupIsExact(s, session);
    if s.users[u].domain == DomainLobby {
      var l := s.users[u].lobby;
      assert LobbyShape(s.lobbies[l]) && MembersAgree(s.users, s.lobbies[l], l);
      OneSlotGoes(p, s.lobbies[l].slots, u);
    }
  }

  // Rooms

  // The users that say they are in room r of lobby l.
  function OccupantsOf(s: ServerState, l: int, r: int): set<int> {
    set u | 0 <= u < |s.users| && s.users[u].domain == DomainRoom && s.users[u].lobby == l && s.users[u].room == r
  }

  // The room list holds the occupants, once each.
  lemma OccupantsAreListed(s: ServerState, l: int, r: int)
    requires Inv(s) && 0 <= l < |s.lobbies| && s.lobbies[l].HasRoom(r)
    ensures var room := s.lobbies[l].rooms[r];
            && RoomShape(room) && room.index == r && LobbyShape(s.lobbies[l])
            && (forall u :: u in room.members <==> u in OccupantsOf(s, l, r))
            && |room.members| == |OccupantsOf(s, l, r)|
  {
    var members := s.lobbies[l].rooms[r].members;
    assert LobbyShape(s.lobbies[l]) && RoomShape(s.lobbies[l].rooms[r]);
    assert MembersAgree(s.users, s.lobbies[l], l) && RoomAgrees(s.users, members, l, r);
    Reachable.SeqSetSize(members, OccupantsOf(s, l, r));
  }

  // The server once the record of user u, and room r of its lobby l, are replaced.
  function Seated(s: ServerState, l: int, r: int, room: RoomState, u: int, user: UserState): ServerState
    requires 0 <= l < |s.lobbies| && s.lobbies[l].HasRoom(r) && 0 <= u < |s.users|
  {
    s.(users := s.users[u := user], lobbies := s.lobbies[l := s.lobbies[l].(rooms := s.lobbies[l].rooms[r := room])])
  }

  // Room r is the first one not in use.
  ghost predicate FirstUnused(lobby: LobbyState, r: int) {
    lobby.HasRoom(r) && !lobby.rooms[r].used && forall q :: 0 <= q < r ==> lobby.rooms[q].used
  }

  /** Room enter, outside LOBBY: refused. */
  lemma RoomEnterElsewhere(p: Patch, s: ServerState, session: int, create: bool, r: int, title: string, u: int)
    requires Inv(s) && s.GetUser(session) == Found(u) && s.users[u].domain != DomainLobby
    ensures RefusedWith(p, s, RoomEnterReq(session, create, r, title), ROOM_ENTER_INVALID_DOMAIN)
  {
  }

  /**
   * Room creation: refused when all rooms are in use. Otherwise the first room not in use gets the title asked for and
   * the user as its only member, and nobody else hears of it; but a room for nobody is only taken into use.
   */
  lemma RoomCreateAnswer(p: Patch, s: ServerState, session: int, r: int, title: string, u: int)
    requires Inv(s) && s.GetUser(session) == Found(u) && s.users[u].domain == DomainLobby
    ensures var l, e := s.users[u].lobby, RoomEnterReq(session, true, r, title);
            && 0 <= l < |s.lobbies|
            && ((forall q :: 0 <= q < |s.lobbies[l].rooms| ==> s.lobbies[l].rooms[q].used) ==>
                RefusedWith(p, s, e, ROOM_ENTER_EMPTY_ROOM))
            && forall k :: FirstUnused(s.lobbies[l], k) ==>
                 var max := s.lobbies[l].rooms[k].max;
                 var code := if max == 0 then ROOM_ENTER_MEMBER_FULL else NONE;
                 Step(p, s, e) ==
                 Done(Seated(s, l, k, RoomState(k, max, true, title, if max == 0 then [] else [u]), u,
                             if max == 0 then s.users[u] else s.users[u].(domain := DomainRoom, room := k)),
                      code, [Sent(session, RoomEnterRes(code))])
  {
    LookupIsExact(s, session);
    var l := s.users[u].lobby;
    if forall q :: 0 <= q < |s.lobbies[l].rooms| ==> s.lobbies[l].rooms[q].used {
      assert s.lobbies[l].AllocRoom(0) == |s.lobbies[l].rooms|;
    }
    forall k | FirstUnused(s.lobbies[l], k)
      ensures var max := s.lobbies[l].rooms[k].max;
              var code := if max == 0 then ROOM_ENTER_MEMBER_FULL else NONE;
              RoomEnter(s, session, true, r, title) ==
              Done(Seated(s, l, k, RoomState(k, max, true, title, if max == 0 then [] else [u]), u,
                          if max == 0 then s.users[u] else s.users[u].(domain := DomainRoom, room := k)),
                   code, [Sent(session, RoomEnterRes(code))])
    {
      CreateFirstUnused(s, session, r, title, u, k);
    }
  }

  lemma CreateFirstUnused(s: ServerState, session: int, r: int, title: string, u: int, k: int)
    requires Inv(s) && s.GetUser(session) == Found(u) && s.users[u].domain == DomainLobby
    requires 0 <= s.users[u].lobby < |s.lobbies| && FirstUnused(s.lobbies[s.users[u].lobby], k)
    ensures var l := s.users[u].lobby;
            var max := s.lobbies[l].rooms[k].max;
            var code := if max == 0 then ROOM_ENTER_MEMBER_FULL else NONE;
            RoomEnter(s, session, true, r, title) ==
            Done(Seated(s, l, k, RoomState(k, max, true, title, if max == 0 then [] else [u]), u,
                        if max == 0 then s.users[u] else s.users[u].(domain := DomainRoom, room := k)),
                 code, [Sent(session, RoomEnterRes(code))])
  {
    LookupIsExact(s, session);
    var l := s.users[u].lobby;
    var room := s.lobbies[l].rooms[k];
    OccupantsAreListed(s, l, k);
    assert s.lobbies[l].AllocRoom(0) == k && [] + [u] == [u];
    var inUse := RoomState(k, room.max, true, title, []);
    assert RoomEnter(s, session, true, r, title) == SeatInRoom(s, session, u, l, k, inUse);
    if room.max > 0 {
      var s' := SeatInRoom(s, session, u, l, k, inUse).state;
      Closing.SendToAllDelivers(s'.users, [u], u, NewUserNtf(s.users[u].id));
      assert Closing.Addressed([u], u) == [];
      assert Closing.Deliver(s'.users, [], NewUserNtf(s.users[u].id)) == [];
    }
  }

  /**
   * Room entry: refused for a room that does not exist, is not in use, or is full. Otherwise the user is appended to
   * the list, the title stays, and those who were there, in their order, are told the newcomer's ID.
   */
  lemma RoomJoinAnswer(p: Patch, s: ServerState, session: int, r: int, title: string, u: int)
    requires Inv(s) && s.GetUser(session) == Found(u) && s.users[u].domain == DomainLobby
    ensures var l, e := s.users[u].lobby, RoomEnterReq(session, false, r, title);
            && 0 <= l < |s.lobbies|
            && (!s.lobbies[l].HasRoom(r) ==> RefusedWith(p, s, e, ROOM_ENTER_INVALID_ROOM_INDEX))
            && (s.lobbies[l].HasRoom(r) ==>
                var room := s.lobbies[l].rooms[r];
                if !room.used then RefusedWith(p, s, e, ROOM_ENTER_NOT_CREATED)
                else if |OccupantsOf(s, l, r)| == room.max then RefusedWith(p, s, e, ROOM_ENTER_MEMBER_FULL)
                else Step(p, s, e) ==
                     Done(Seated(s, l, r, room.(members := room.members + [u]), u,
                                 s.users[u].(domain := DomainRoom, room := r)),
                          NONE, Closing.Deliver(s.users, room.members, NewUserNtf(s.users[u].id))
                                + [Sent(session, RoomEnterRes(NONE))]))
  {
    LookupIsExact(s, session);
    var l := s.users[u].lobby;
    if s.lobbies[l].HasRoom(r) {
      OccupantsAreListed(s, l, r);
      SameRoomSameState(s, l, r);
      var room := s.lobbies[l].rooms[r];
      if room.used && |room.members| < room.max {
        JoinRoom(s, session, r, title, u);
      }
    }
  }

  lemma JoinRoom(s: ServerState, session: int, r: int, title: string, u: int)
    requires Inv(s) && s.GetUser(session) == Found(u) && s.users[u].domain == DomainLobby
    requires 0 <= s.users[u].lobby < |s.lobbies| && s.lobbies[s.users[u].lobby].HasRoom(r)
    requires var room := s.lobbies[s.users[u].lobby].rooms[r]; room.used && |room.members| < room.max
    ensures var l := s.users[u].lobby;
            var room := s.lobbies[l].rooms[r];
            RoomEnter(s, session, false, r, title) ==
            Done(Seated(s, l, r, room.(members := room.members + [u]), u, s.users[u].(domain := DomainRoom, room := r)),
                 NONE, Closing.Deliver(s.users, room.members, NewUserNtf(s.users[u].id))
                       + [Sent(session, RoomEnterRes(NONE))])
  {
    LookupIsExact(s, session);
    var l := s.users[u].lobby;
    var room := s.lobbies[l].rooms[r];
    OccupantsAreListed(s, l, r);
    var o := SeatInRoom(s, session, u, l, r, room);
    assert RoomEnter(s, session, false, r, title) == o;
    NewcomerIsAnnounced(s, o.state.users, l, r, u, NewUserNtf(s.users[u].id));
  }

  // Telling all but the newcomer is telling those who were there.
  lemma NewcomerIsAnnounced(s: ServerState, users': seq<UserState>, l: int, r: int, u: int, packet: Packet)
    requires Inv(s) && 0 <= l < |s.lobbies| && s.lobbies[l].HasRoom(r) && 0 <= u < |s.users|
    requires u !in s.lobbies[l].rooms[r].members
    requires |users'| == |s.users| && users' == s.users[u := users'[u]] && users'[u].index == u
    ensures var members := s.lobbies[l].rooms[r].members;
            SendToAll(users', members + [u], u, packet) == Closing.Deliver(s.users, members, packet)
  {
    var members := s.lobbies[l].rooms[r].members;
    Closing.MembersOwnIndices(s, l, r);
    assert Closing.OwnIndices(users', members + [u]);
    Closing.SendToAllDelivers(users', members + [u], u, packet);
    AllButTheLast(members, u);
    assert Closing.Deliver(users', members, packet) == Closing.Deliver(s.users, members, packet);
  }

  lemma {:induction false} AllButTheLast(members: seq<int>, u: int)
    requires u !in members
    ensures Closing.Addressed(members + [u], u) == members
  {
    if members != [] {
      assert (members + [u])[1..] == members[1..] + [u];
      AllButTheLast(members[1..], u);
    }
  }

  // The room once user u has left it; an emptied room is free again and has no title.
  function RoomLeft(room: RoomState, u: int): RoomState {
    var rest := Closing.Remaining(room.members, u);
    if rest == [] then RoomState(room.index, room.max, false, "", []) else room.(members := rest)
  }

  lemma LeavingIsRoomLeft(room: RoomState, u: int)
    requires RoomShape(room) && u in room.members
    ensures room.Leave(u) == (RoomLeft(room, u), NONE)
  {
  }

  /** Room leave: from ROOM, and from there always; those left, in their order, are told the ID. */
  lemma RoomLeaveAnswer(p: Patch, s: ServerState, session: int, u: int)
    requires Inv(s) && s.GetUser(session) == Found(u)
    ensures s.users[u].domain != DomainRoom ==> RefusedWith(p, s, RoomLeaveReq(session), ROOM_LEAVE_INVALID_DOMAIN)
    ensures s.users[u].domain == DomainRoom ==>
              var l, r := s.users[u].lobby, s.users[u].room;
              && 0 <= l < |s.lobbies| && s.lobbies[l].HasRoom(r) && u in s.lobbies[l].rooms[r].members
              && Step(p, s, RoomLeaveReq(session)) ==
                 Done(Seated(s, l, r, RoomLeft(s.lobbies[l].rooms[r], u), u, s.users[u].(domain := DomainLobby)), NONE,
                      Closing.Deliver(s.users, Closing.Remaining(s.lobbies[l].rooms[r].members, u),
                                      LeaveUserNtf(s.users[u].id))
                      + [Sent(session, RoomEnterRes(NONE))])
  {
    LookupIsExact(s, session);
    if s.users[u].domain == DomainRoom {
      var l, r := s.users[u].lobby, s.users[u].room;
      OccupantsAreListed(s, l, r);
      var room := s.lobbies[l].rooms[r];
      LeavingIsRoomLeft(room, u);
      var o := LeaveSeat(s, session, u, l, r);
      assert RoomLeave(s, session) == o;
      DepartureIsAnnounced(s, o.state.users, l, r, u);
    }
  }

  lemma DepartureIsAnnounced(s: ServerState, users': seq<UserState>, l: int, r: int, u: int)
    requires Inv(s) && 0 <= l < |s.lobbies| && s.lobbies[l].HasRoom(r) && 0 <= u < |s.users|
    requires u in s.lobbies[l].rooms[r].members
    requires |users'| == |s.users| && users' == s.users[u := users'[u]] && users'[u].index == u
    ensures var room := s.lobbies[l].rooms[r];
            NotifyLeave(users', RoomLeft(room, u), s.users[u].id) ==
            Closing.Deliver(s.users, Closing.Remaining(room.members, u), LeaveUserNtf(s.users[u].id))
  {
    var room := s.lobbies[l].rooms[r];
    OccupantsAreListed(s, l, r);
    LeavingIsRoomLeft(room, u);
    Closing.MembersOwnIndices(s, l, r);
    assert Closing.OwnIndices(users', room.members);
    Closing.NotifyLeaveDelivers(users', room, u, s.users[u].id);
    Closing.RemainingMembers(room.members, u);
    var rest := Closing.Remaining(room.members, u);
    forall i | 0 <= i < |rest| ensures UserAt(users', rest[i]).session == UserAt(s.users, rest[i]).session {
      assert rest[i] in rest;
    }
    assert Closing.Deliver(users', rest, LeaveUserNtf(s.users[u].id)) == Closing.Deliver(s.users, rest, LeaveUserNtf(s.users[u].id));
  }

  /**
   * Room chat: from ROOM, and from there always. Every member, in order, but the one whose index is the sender's
   * session (R5 repaired: but the sender) gets ID and message; the response goes out as a room-enter response.
   */
  lemma RoomChatAnswer(p: Patch, s: ServerState, session: int, msg: string, u: int)
    requires Inv(s) && s.GetUser(session) == Found(u)
    ensures s.users[u].domain != DomainRoom ==> RefusedWith(p, s, RoomChatReq(session, msg), ROOM_CHAT_INVALID_DOMAIN)
    ensures s.users[u].domain == DomainRoom ==>
              var l, r := s.users[u].lobby, s.users[u].room;
              && 0 <= l < |s.lobbies| && s.lobbies[l].HasRoom(r) && u in s.lobbies[l].rooms[r].members
              && Step(p, s, RoomChatReq(session, msg)) ==
                 Done(s, NONE, Closing.Deliver(s.users, Closing.Addressed(s.lobbies[l].rooms[r].members,
                                                                          if p.passByUser then u else s.users[u].session),
                                               ChatNtf(s.users[u].id, msg))
                               + [Sent(session, RoomEnterRes(NONE))])
  {
    LookupIsExact(s, session);
    if s.users[u].domain == DomainRoom {
      var l, r := s.users[u].lobby, s.users[u].room;
      OccupantsAreListed(s, l, r);
      Closing.MembersOwnIndices(s, l, r);
      Closing.SendToAllDelivers(s.users, s.lobbies[l].rooms[r].members, if p.passByUser then u else s.users[u].session,
                                ChatNtf(s.users[u].id, msg));
    }
  }

  // Close

  // The rooms of a lobby when user u, in one of them or in none, is gone.
  function RoomsWithout(s: ServerState, l: int, u: int): seq<RoomState>
    requires 0 <= l < |s.lobbies| && 0 <= u < |s.users|
  {
    var rooms, r := s.lobbies[l].rooms, s.users[u].room;
    if s.users[u].domain == DomainRoom && 0 <= r < |rooms| then rooms[r := RoomLeft(rooms[r], u)] else rooms
  }

  // The entry is blank and last in the deque, its ID is forgotten, and so is the session; as written, the session
  // numbered like the entry.
  ghost predicate EntryClosed(p: Patch, s: ServerState, s': ServerState, session: int, u: int)
    requires 0 <= u < |s.users|
  {
    && s'.users == s.users[u := UserState(u, 0, "", false, DomainNone, -1, -1)] && s'.free == s.free + [u]
    && s'.bySession == s.bySession - {if p.eraseBySession then session else u}
    && s'.byId == s.byId - {if p.keyByText then Text(s.users[u].id) else LocalCopy}
  }

  // The lobby that the user's index names, if there is one, is left; as written, the slot numbered like the user goes.
  ghost predicate PlaceClosed(p: Patch, s: ServerState, s': ServerState, u: int)
    requires 0 <= u < |s.users|
  {
    var l := s.users[u].lobby;
    && |s'.lobbies| == |s.lobbies|
    && if 0 <= l < |s.lobbies| then
         && s'.lobbies == s.lobbies[l := s'.lobbies[l]]
         && LobbyLeft(p, s, s.lobbies[l], s'.lobbies[l], u)
         && s'.lobbies[l].rooms == RoomsWithout(s, l, u)
       else s'.lobbies == s.lobbies
  }

  /**
   * Close: without a confirmed user nothing happens; otherwise the user's entry and its place are closed. Whom that is
   * told to is said by CloseNotifies.
   */
  lemma CloseAnswer(p: Patch, s: ServerState, session: int)
    requires Inv(s)
    ensures s.GetUser(session).Missing? ==> Step(p, s, Close(session)) == Done(s, NONE, [])
    ensures s.GetUser(session).Found? ==>
              var u, o := s.bySession[session], Step(p, s, Close(session));
              && 0 <= u < |s.users| && o.Done? && o.code == NONE
              && EntryClosed(p, s, o.state, session, u) && PlaceClosed(p, s, o.state, u)
  {
    LookupIsExact(s, session);
    if s.GetUser(session).Found? {
      var u, s' := s.bySession[session], CloseSession(p, s, session).state;
      Closing.CloseOfUser(p, s, session);
      Closing.LeaveAllActsOnOneLobby(p, s, session);
      EntryIsBlank(p, s, s', session, u);
      PlaceIsLeft(p, s, s', u);
    }
  }

  lemma EntryIsBlank(p: Patch, s: ServerState, s': ServerState, session: int, u: int)
    requires 0 <= u < |s.users| && UserInv(s.users, s.free, u)
    requires s'.free == s.free + [u] && s'.users == s.users[u := s.users[u].Cleared()]
    requires s'.bySession == s.bySession - {if p.eraseBySession then session else u}
    requires s'.byId == s.byId - {if p.keyByText then Text(s.users[u].id) else LocalCopy}
    ensures EntryClosed(p, s, s', session, u)
  {
  }

  lemma PlaceIsLeft(p: Patch, s: ServerState, s': ServerState, u: int)
    requires Inv(s) && 0 <= u < |s.users| && UserInv(s.users, s.free, u)
    requires s'.lobbies == if s.HasLobby(s.users[u].lobby)
                           then s.lobbies[s.users[u].lobby := Closing.LobbyAfterLeaveAll(p, s, u)] else s.lobbies
    ensures PlaceClosed(p, s, s', u)
  {
    ShortIsExact(|s.lobbies|);
    if 0 <= s.users[u].lobby < |s.lobbies| {
      LobbyAfterClose(p, s, u);
    }
  }

  lemma LobbyAfterClose(p: Patch, s: ServerState, u: int)
    requires Inv(s) && 0 <= u < |s.users| && UserInv(s.users, s.free, u) && 0 <= s.users[u].lobby < |s.lobbies|
    ensures var l := s.users[u].lobby;
            var b := Closing.LobbyAfterLeaveAll(p, s, u);
            LobbyLeft(p, s, s.lobbies[l], b, u) && b.rooms == RoomsWithout(s, l, u)
  {
    var l, r := s.users[u].lobby, s.users[u].room;
    var a := s.lobbies[l];
    assert LobbyShape(a) && MembersAgree(s.users, a, l);
    OneSlotGoes(p, a.slots, u);
    if a.HasRoom(r) {
      OccupantsAreListed(s, l, r);
      if s.users[u].domain == DomainRoom {
        LeavingIsRoomLeft(a.rooms[r], u);
      } else {
        assert a.rooms[r].Leave(u).0 == a.rooms[r];
        assert a.rooms[r := a.rooms[r]] == a.rooms;
      }
    } else {
      assert PlaceExists(s.users[u], s.lobbies);
    }
  }
}
