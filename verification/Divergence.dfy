/** Where the code as written departs from the repaired code: for each call, exactly when it does not. */
module Divergence {
  import opened Types
  import opened State
  import opened Handlers
  import opened Invariant
  import Slots
  import opened Registry
  import opened Closing
  import Reachable

  /**
   * R1: the entry of a closed session is gone afterwards if and only if the pool index equals the session, or R1 is
   * repaired.
   */
  lemma SessionEntryErased(p: Patch, s: ServerState, session: int)
    requires Inv(s) && session in s.bySession
    ensures session !in s.RemoveUser(p, session).0.bySession <==> p.eraseBySession || s.bySession[session] == session
  {
    assert UserInv(s.users, s.free, s.bySession[session]);
  }

  /**
   * R1 over three requests: after a close, a login on the same session number that is answered with success really
   * logs the client in if and only if R1 is repaired, the old pool index equals the session, or no other entry was
   * free. Otherwise the session still leads to the old, now unconfirmed entry.
   */
  lemma RelogAfterClose(p: Patch, s: ServerState, session: int, id: string, buffer: int)
    requires Inv(s) && s.GetUser(session).Found?
    requires CloseSession(p, s, session).state.AddUser(p, session, id, buffer).1 == NONE
    ensures var s1 := CloseSession(p, s, session).state;
            var s2 := s1.AddUser(p, session, id, buffer).0;
            s2.GetUser(session) == Found(s1.free[0]) <==>
            p.eraseBySession || s.bySession[session] == session || s.free == []
  {
    var u := s.bySession[session];
    var s1 := CloseSession(p, s, session).state;
    var s2 := s1.AddUser(p, session, id, buffer).0;
    CloseOfUser(p, s, session);
    assert UserInv(s.users, s.free, u) && UserInv(s1.users, s1.free, s1.free[0]);
  }

  /**
   * R1, the other way about: after a close, a successful login of another session puts the closed session back in
   * use, now acting for the other client, if and only if R1 is not repaired, pool index and closed session differ,
   * and no other entry was free.
   */
  lemma ClosedSessionActsForTheNext(p: Patch, s: ServerState, session: int, other: int, id: string, buffer: int)
    requires Inv(s) && s.GetUser(session).Found? && other != session
    requires CloseSession(p, s, session).state.AddUser(p, other, id, buffer).1 == NONE
    ensures var u := s.bySession[session];
            var s2 := CloseSession(p, s, session).state.AddUser(p, other, id, buffer).0;
            && (s2.GetUser(session).Found? <==> !p.eraseBySession && u != session && s.free == [])
            && (s2.GetUser(session).Found? ==> s2.GetUser(session) == Found(u) && s2.User(u).session == other)
  {
    var u := s.bySession[session];
    var s1 := CloseSession(p, s, session).state;
    CloseOfUser(p, s, session);
    assert UserInv(s.users, s.free, u) && UserInv(s1.users, s1.free, s1.free[0]);
  }

  /**
   * A successful login leaves every session leading to its own user; and every confirmed user reached by its session
   * if and only if the session was not logged in.
   */
  lemma LoginKeepsBijectionIffFresh(p: Patch, s: ServerState, session: int, id: string, buffer: int)
    requires Inv(s) && SessionsInv(s) && AllLinked(s) && s.AddUser(p, session, id, buffer).1 == NONE
    ensures var s' := s.AddUser(p, session, id, buffer).0;
            SessionsInv(s') && (AllLinked(s') <==> session !in s.bySession)
  {
    AddUserKeepsSessions(p, s, session, id, buffer);
  }

  // No two confirmed users have the same ID.
  ghost predicate DistinctIds(s: ServerState) {
    forall u, v :: 0 <= u < v < |s.users| && s.users[u].confirmed && s.users[v].confirmed ==>
      s.users[u].id != s.users[v].id
  }

  // A confirmed user has this ID.
  ghost predicate IdTaken(s: ServerState, id: string) {
    exists u :: 0 <= u < |s.users| && s.users[u].confirmed && s.users[u].id == id
  }

  /** R3: a successful login keeps the IDs of the confirmed users distinct if and only if none had that ID. */
  lemma LoginKeepsIdsDistinctIff(p: Patch, s: ServerState, session: int, id: string, buffer: int)
    requires Inv(s) && DistinctIds(s) && s.AddUser(p, session, id, buffer).1 == NONE
    ensures DistinctIds(s.AddUser(p, session, id, buffer).0) <==> !IdTaken(s, id)
  {
    var s' := s.AddUser(p, session, id, buffer).0;
    var u := s.free[0];
    assert UserInv(s.users, s.free, u);
    if v :| 0 <= v < |s.users| && s.users[v].confirmed && s.users[v].id == id {
      assert s'.users[u].id == s'.users[v].id;
    }
  }

  // Slot i holds user u and comes first among those that do.
  ghost predicate HeldFirst(slots: seq<Option<int>>, i: int, u: int) {
    && 0 <= i < |slots| && slots[i] == Some(u)
    && forall j :: 0 <= j < i ==> slots[j] != Some(u)
  }

  /**
   * R2: whatever the slots, they come out as repaired if and only if the slot numbered like the user is the first
   * to hold that user, or is not occupied (or not there at all) and no slot holds the user.
   */
  lemma SlotClearedIffNumberMatches(slots: seq<Option<int>>, u: int)
    ensures ClearSlot(AS_WRITTEN, slots, u) == ClearSlot(REPAIRED, slots, u) <==>
            if 0 <= u < |slots| && slots[u].Some? then HeldFirst(slots, u, u) else Some(u) !in slots
  {
    var a, b := ClearSlot(AS_WRITTEN, slots, u), ClearSlot(REPAIRED, slots, u);
    var k := FirstMatch(REPAIRED, slots, u, 0);
    ClearsNumberedSlot(AS_WRITTEN, slots, u);
    assert forall i :: 0 <= i < |slots| ==> (SlotMatches(REPAIRED, slots, i, u) <==> slots[i] == Some(u));
    if k < |slots| {
      assert b[k] == None && slots[k] == Some(u);
      assert a == b ==> k == u && HeldFirst(slots, u, u);
      assert HeldFirst(slots, u, u) ==> k == u;
    } else {
      assert b == slots;
      assert 0 <= u < |slots| && slots[u].Some? ==> a[u] != b[u];
    }
  }

  // As written: the slot cleared is the one numbered like the user, whoever holds it.
  lemma ClearsNumberedSlot(p: Patch, slots: seq<Option<int>>, u: int)
    requires !p.clearByUser
    ensures |ClearSlot(p, slots, u)| == |slots|
    ensures forall i :: 0 <= i < |slots| ==> ClearSlot(p, slots, u)[i] == if i == u then None else slots[i]
  {
    var k := FirstMatch(p, slots, u, 0);
    if 0 <= u < |slots| && slots[u].Some? {
      assert SlotMatches(p, slots, u, u);
    }
  }

  /**
   * Entering a lobby and leaving it restores slots and both dictionaries if and only if R2 is repaired or the
   * first free slot is numbered like the user. As written this holds whatever earlier leaves did to the slots.
   */
  lemma LobbyRoundTrip(p: Patch, lobby: LobbyState, u: int, id: string)
    requires LobbyShape(lobby) && (p.clearByUser ==> Slots.SlotsAgree(lobby)) && LobbyKey(p, u, id) !in lobby.byId
    requires lobby.Enter(p, u, id).Entered? && lobby.Enter(p, u, id).code == NONE
    ensures lobby.Enter(p, u, id).lobby.Leave(p, u, id) == (lobby, NONE) <==>
            p.clearByUser || FirstFree(lobby.slots, 0) == u
  {
    var left := lobby.Enter(p, u, id).lobby.Leave(p, u, id).0;
    assert left.byIndex == lobby.byIndex && left.byId == lobby.byId;
    SlotRoundTrip(p, lobby, u);
  }

  lemma SlotRoundTrip(p: Patch, lobby: LobbyState, u: int)
    requires (p.clearByUser ==> Slots.SlotsAgree(lobby)) && u !in lobby.byIndex
    requires FirstFree(lobby.slots, 0) < |lobby.slots|
    ensures var k := FirstFree(lobby.slots, 0);
            ClearSlot(p, lobby.slots[k := Some(u)], u) == lobby.slots <==> p.clearByUser || k == u
  {
    var k := FirstFree(lobby.slots, 0);
    var slots := lobby.slots[k := Some(u)];
    if p.clearByUser {
      Slots.ClearsOwnSlot(p, slots, u);
      assert ClearSlot(p, slots, u) == lobby.slots;
    } else {
      ClearsNumberedSlot(p, slots, u);
      if k == u {
        assert ClearSlot(p, slots, u) == lobby.slots;
      } else {
        assert ClearSlot(p, slots, u)[k] != lobby.slots[k];
      }
    }
  }

  /**
   * The same through the handlers: after a successful lobby enter, lobby leave succeeds and takes the whole server
   * back to where it was, but for the lobby index the user now carries, if and only if R2 is repaired or the first
   * free slot was numbered like the user.
   */
  lemma LobbyVisit(p: Patch, s: ServerState, session: int, l: int)
    requires Inv(s) && (p.clearByUser ==> Slots.SlotsInv(s)) && IdsInv(p, s)
    requires LobbyEnter(p, s, session, l).Done? && LobbyEnter(p, s, session, l).code == NONE
    ensures var u := s.bySession[session];
            var back := LobbyLeave(p, LobbyEnter(p, s, session, l).state, session);
            && back.Done? && back.code == NONE
            && (back.state == s.WithUser(u, s.User(u).(lobby := l)) <==>
                p.clearByUser || FirstFree(s.lobbies[l].slots, 0) == u)
  {
    var u := s.bySession[session];
    assert LobbyShape(s.lobbies[l]) && (p.clearByUser ==> Slots.SlotsAgree(s.lobbies[l])) && IdsAgree(p, s.users, s.lobbies[l]);
    VisitInSteps(p, s, session, l);
    KeyIsOwn(p, s, l, u);
    LobbyRoundTrip(p, s.lobbies[l], u, s.User(u).id);
    var left := s.lobbies[l].Enter(p, u, s.User(u).id).lobby.Leave(p, u, s.User(u).id).0;
    assert left == s.lobbies[l] ==> s.lobbies[l := left] == s.lobbies;
    assert left != s.lobbies[l] ==> s.lobbies[l := left][l] != s.lobbies[l];
  }

  // The two handlers do to the lobby what entering and leaving it does.
  lemma VisitInSteps(p: Patch, s: ServerState, session: int, l: int)
    requires Inv(s) && LobbyEnter(p, s, session, l).Done? && LobbyEnter(p, s, session, l).code == NONE
    ensures var u := s.bySession[session];
            var back := LobbyLeave(p, LobbyEnter(p, s, session, l).state, session);
            var left := s.lobbies[l].Enter(p, u, s.User(u).id).lobby.Leave(p, u, s.User(u).id).0;
            && 0 <= u < |s.users| && UserInv(s.users, s.free, u) && u !in s.lobbies[l].byIndex
            && s.lobbies[l].Enter(p, u, s.User(u).id).Entered? && s.lobbies[l].Enter(p, u, s.User(u).id).code == NONE
            && back.Done? && back.code == NONE
            && back.state == s.(lobbies := s.lobbies[l := left], users := s.users[u := s.users[u].(lobby := l)])
  {
    var u := s.bySession[session];
    EnterInSteps(p, s, session, l);
    LeaveInSteps(p, LobbyEnter(p, s, session, l).state, session, l, u);
  }

  lemma EnterInSteps(p: Patch, s: ServerState, session: int, l: int)
    requires Inv(s) && LobbyEnter(p, s, session, l).Done? && LobbyEnter(p, s, session, l).code == NONE
    ensures var u := s.bySession[session];
            && 0 <= u < |s.users| && UserInv(s.users, s.free, u) && s.GetUser(session) == Found(u)
            && s.HasLobby(l) && u !in s.lobbies[l].byIndex
            && var e := s.lobbies[l].Enter(p, u, s.User(u).id);
               && e.Entered? && e.code == NONE && e.lobby.byIndex == s.lobbies[l].byIndex[u := u]
               && LobbyEnter(p, s, session, l).state == s.WithLobby(l, e.lobby).WithUser(u, s.User(u).EnteredLobby(l))
  {
    assert UserInv(s.users, s.free, s.bySession[session]) && LobbyShape(s.lobbies[l]);
  }

  lemma LeaveInSteps(p: Patch, s: ServerState, session: int, l: int, u: int)
    requires s.GetUser(session) == Found(u) && 0 <= u < |s.users| && s.users[u].index == u
    requires s.HasLobby(l) && 0 <= l < |s.lobbies| && s.users[u].domain == DomainLobby && s.users[u].lobby == l
    requires u in s.lobbies[l].byIndex && s.lobbies[l].byIndex[u] == u
    ensures LobbyLeave(p, s, session).Done? && LobbyLeave(p, s, session).code == NONE
    ensures LobbyLeave(p, s, session).state ==
            s.WithLobby(l, s.lobbies[l].Leave(p, u, s.User(u).id).0).WithUser(u, s.User(u).LeftLobby())
  {
  }

  /**
   * Asking a lobby to drop a user it does not have changes nothing if and only if R2 is repaired or the slot
   * numbered like the user is not occupied.
   */
  lemma NonMemberLeave(p: Patch, lobby: LobbyState, u: int, id: string)
    requires (p.clearByUser ==> Slots.SlotsAgree(lobby)) && u !in lobby.byIndex
    ensures lobby.Leave(p, u, id).1 == LOBBY_LEAVE_USER_INVALID_UNIQUEINDEX
    ensures lobby.Leave(p, u, id).0 == lobby <==>
            p.clearByUser || !(0 <= u < |lobby.slots| && lobby.slots[u].Some?)
  {
    if p.clearByUser {
      Slots.ClearsOwnSlot(p, lobby.slots, u);
      assert ClearSlot(p, lobby.slots, u) == lobby.slots;
    } else {
      ClearsNumberedSlot(p, lobby.slots, u);
      if 0 <= u < |lobby.slots| && lobby.slots[u].Some? {
        assert ClearSlot(p, lobby.slots, u)[u] != lobby.slots[u];
      } else {
        assert ClearSlot(p, lobby.slots, u) == lobby.slots;
      }
    }
  }

  // Some login request of the run came out of this buffer position and succeeded.
  ghost predicate BufferUsed(es: seq<Event>, codes: seq<Code>, buffer: int) {
    exists i :: 0 <= i < |es| && i < |codes| && es[i].LoginReq? && es[i].buffer == buffer && codes[i] == NONE
  }

  lemma StepBurnsBuffers(p: Patch, s: ServerState, e: Event, buffer: int)
    requires !p.keyByText && Step(p, s, e).Done?
    ensures PacketBuffer(buffer) in Step(p, s, e).state.byId <==>
            PacketBuffer(buffer) in s.byId || BufferUsed([e], [Step(p, s, e).code], buffer)
  {
    if e.LoginReq? && e.buffer == buffer && Step(p, s, e).code == NONE {
      assert [e][0] == e && [Step(p, s, e).code][0] == NONE;
    } else if e.Close? {
      LeaveAllKeepsIdentities(p, s, if e.session in s.bySession then s.bySession[e.session] else 0);
    } else if !e.LoginReq? {
      MovesKeepIdentities(p, s, e);
    }
  }

  lemma {:induction false} RunBurnsBuffers(p: Patch, s: ServerState, es: seq<Event>, buffer: int)
    requires !p.keyByText && Run(p, s, es).Ran?
    ensures |Run(p, s, es).codes| == |es|
    ensures PacketBuffer(buffer) in Run(p, s, es).state.byId <==>
            PacketBuffer(buffer) in s.byId || BufferUsed(es, Run(p, s, es).codes, buffer)
    decreases |es|
  {
    if es != [] {
      var o := Step(p, s, es[0]);
      StepBurnsBuffers(p, s, es[0], buffer);
      RunBurnsBuffers(p, o.state, es[1..], buffer);
      var codes, rest := Run(p, s, es).codes, Run(p, o.state, es[1..]).codes;
      assert codes == [o.code] + rest;
      if BufferUsed([es[0]], [o.code], buffer) {
        assert es[0].LoginReq? && es[0].buffer == buffer && codes[0] == NONE;
      }
      if BufferUsed(es[1..], rest, buffer) {
        var i :| 0 <= i < |es[1..]| && i < |rest| && es[1..][i].LoginReq? && es[1..][i].buffer == buffer && rest[i] == NONE;
        assert es[1 + i].LoginReq? && es[1 + i].buffer == buffer && codes[1 + i] == NONE;
      }
      if BufferUsed(es, codes, buffer) {
        var i :| 0 <= i < |es| && i < |codes| && es[i].LoginReq? && es[i].buffer == buffer && codes[i] == NONE;
        if i == 0 {
          assert [es[0]][0].LoginReq? && [o.code][0] == NONE;
        } else {
          assert es[1..][i - 1].LoginReq? && rest[i - 1] == NONE;
        }
      }
    }
  }

  /**
   * R3: as written, a login is refused as a duplicate ID if and only if some earlier login of the run succeeded
   * out of the same place in the receive buffers. Neither the ID nor whether that user is still there matters.
   */
  lemma DuplicateMeansSameBuffer(p: Patch, cfg: Config, es: seq<Event>, session: int, id: string, buffer: int)
    requires !p.keyByText && Run(p, Init(cfg), es).Ran?
    ensures var r := Run(p, Init(cfg), es);
            Login(p, r.state, session, id, buffer).code == USER_MGR_ID_DUPLICATION <==> BufferUsed(es, r.codes, buffer)
  {
    RunBurnsBuffers(p, Init(cfg), es, buffer);
  }

  /** R3 repaired: a login is refused as a duplicate ID if and only if a confirmed user has that ID. */
  lemma DuplicateMeansSameId(p: Patch, cfg: Config, es: seq<Event>, s: ServerState, session: int, id: string, buffer: int)
    requires Reachable.Reached(p, cfg, es, s) && p.keyByText
    ensures Login(p, s, session, id, buffer).code == USER_MGR_ID_DUPLICATION <==>
            IdTaken(s, id)
  {
    InitKeepsInv(cfg);
    InitKeepsRegistry(p, cfg);
    RunKeepsIds(p, Init(cfg), es);
    forall u | 0 <= u < |s.users| && s.users[u].confirmed && s.users[u].id == id ensures Text(id) in s.byId {
      assert HasKey(s.byId, Text(s.users[u].id), u);
    }
  }

  /** R4: as written, the reported user count of a lobby is its number of members if and only if the lobby is full. */
  lemma CountIsRightIffFull(p: Patch, lobby: LobbyState)
    requires LobbyShape(lobby) && lobby.max < 0x8000
    ensures lobby.UserCount(p) == |lobby.byIndex| <==> p.countMembers || |lobby.byIndex| == lobby.max
  {
    ShortIsExact(|lobby.byIndex|);
    ShortIsExact(|lobby.slots|);
  }

  // Whom a chat message of user u is delivered to.
  function ChatReceivers(p: Patch, s: ServerState, u: int): seq<int> {
    var user := s.User(u);
    if CarriesRoom(s, u) then
      Addressed(s.lobbies[user.lobby].rooms[user.room].members, if p.passByUser then user.index else user.session)
    else []
  }

  lemma ChatGoesToReceivers(p: Patch, s: ServerState, session: int, msg: string)
    requires Inv(s) && s.GetUser(session).Found? && s.User(s.bySession[session]).domain == DomainRoom
    ensures var u := s.bySession[session];
            RoomChat(p, s, session, msg) ==
            Done(s, NONE, Deliver(s.users, ChatReceivers(p, s, u), ChatNtf(s.User(u).id, msg))
                          + [Sent(session, RoomEnterRes(NONE))])
  {
    var u := s.bySession[session];
    var user := s.User(u);
    assert UserInv(s.users, s.free, u) && PlaceExists(user, s.lobbies);
    MembersOwnIndices(s, user.lobby, user.room);
    SendToAllDelivers(s.users, s.lobbies[user.lobby].rooms[user.room].members,
                      if p.passByUser then user.index else user.session, ChatNtf(user.id, msg));
  }

  /**
   * R5: chat reaches exactly the other members of the room if and only if R5 is repaired or the sender's pool index
   * equals its session.
   */
  lemma ChatReachesTheOthers(p: Patch, s: ServerState, session: int)
    requires Inv(s) && s.GetUser(session).Found? && s.User(s.bySession[session]).domain == DomainRoom
    ensures var u := s.bySession[session];
            var user := s.User(u);
            CarriesRoom(s, u) &&
            ((forall v :: v in ChatReceivers(p, s, u) <==>
                v in s.lobbies[user.lobby].rooms[user.room].members && v != u)
             <==> p.passByUser || user.session == u)
  {
    var u := s.bySession[session];
    var user := s.User(u);
    assert UserInv(s.users, s.free, u) && PlaceExists(user, s.lobbies);
    var members := s.lobbies[user.lobby].rooms[user.room].members;
    assert MembersAgree(s.users, s.lobbies[user.lobby], user.lobby) && RoomAgrees(s.users, members, user.lobby, user.room);
    AddressedMembers(members, if p.passByUser then user.index else user.session);
    assert u in members;
  }

  /** Every pool entry gets its own position as index if and only if there are at most 32768 entries. */
  lemma PoolIndexIsPosition(cfg: Config)
    ensures (forall u :: 0 <= u < |Init(cfg).users| ==> Init(cfg).users[u].index == u) <==> cfg.maxUsers <= 0x8000
  {
    var s := Init(cfg);
    forall u | 0 <= u < |s.users| ensures s.users[u].index == ToShort(u) {
      assert s.users[u] == NewUser(u);
    }
    if cfg.maxUsers > 0x8000 {
      assert s.users[0x8000].index == -0x8000;
    }
  }

  /** Every lobby is found under its position, and knows it, if and only if there are at most 32767 lobbies. */
  lemma LobbyIsFoundAtPosition(cfg: Config)
    ensures (forall l :: 0 <= l < |Init(cfg).lobbies| ==> Init(cfg).HasLobby(l) && Init(cfg).lobbies[l].index == l)
            <==> cfg.lobbyCount < 0x8000
  {
    var s := Init(cfg);
    forall l | 0 <= l < |s.lobbies| ensures s.lobbies[l].index == ToShort(l) {
      assert s.lobbies[l] == NewLobby(l, cfg);
    }
    if cfg.lobbyCount >= 0x8000 {
      assert !s.HasLobby(|s.lobbies| - 1);
    }
  }

  /** The lobby entered is the lobby found from the user's index afterwards, and the user is in its dictionary. */
  lemma EnteredLobbyIsFoundAgain(p: Patch, s: ServerState, session: int, lobbyId: int)
    requires Inv(s) && LobbyEnter(p, s, session, lobbyId).Done? && LobbyEnter(p, s, session, lobbyId).code == NONE
    ensures var s' := LobbyEnter(p, s, session, lobbyId).state;
            var u := s.bySession[session];
            && s'.User(u).lobby == lobbyId && s'.HasLobby(s'.User(u).lobby)
            && s'.lobbies[lobbyId].byIndex == s.lobbies[lobbyId].byIndex[u := u]
  {
    assert UserInv(s.users, s.free, s.bySession[session]);
  }
}
