/** The teardown of a user when its session closes: whom it notifies, and what it leaves alone. */
module Closing {
  import opened Types
  import opened State
  import opened Handlers
  import opened Invariant
  import opened Slots
  import opened Registry

  // The members whose index is not the one to pass over, in order.
  function Addressed(members: seq<int>, pass: int): seq<int> {
    if members == [] then []
    else (if members[0] != pass then [members[0]] else []) + Addressed(members[1..], pass)
  }

  function Deliver(users: seq<UserState>, to: seq<int>, packet: Packet): seq<Sent> {
    seq(|to|, i requires 0 <= i < |to| => Sent(UserAt(users, to[i]).session, packet))
  }

  ghost predicate OwnIndices(users: seq<UserState>, members: seq<int>) {
    forall i :: 0 <= i < |members| ==> UserAt(users, members[i]).index == members[i]
  }

  lemma DeliverByHead(users: seq<UserState>, head: int, rest: seq<int>, packet: Packet)
    ensures Deliver(users, [head] + rest, packet) ==
            [Sent(UserAt(users, head).session, packet)] + Deliver(users, rest, packet)
  {
    var all, tail := Deliver(users, [head] + rest, packet), Deliver(users, rest, packet);
    forall i | 0 <= i < |tail| ensures all[1 + i] == tail[i] {
      assert ([head] + rest)[1 + i] == rest[i];
    }
    assert all[1..] == tail;
  }

  /** SendToAllUser addresses each member but the one passed over, once, in the order of the list. */
  lemma {:induction false} SendToAllDelivers(users: seq<UserState>, members: seq<int>, pass: int, packet: Packet)
    requires OwnIndices(users, members)
    ensures SendToAll(users, members, pass, packet) == Deliver(users, Addressed(members, pass), packet)
  {
    if members == [] {
      assert Deliver(users, [], packet) == [];
    } else {
      assert OwnIndices(users, members[1..]);
      SendToAllDelivers(users, members[1..], pass, packet);
      DeliverByHead(users, members[0], Addressed(members[1..], pass), packet);
      assert members[0] == pass ==> Addressed(members, pass) == Addressed(members[1..], pass);
    }
  }

  lemma {:induction false} AddressedMembers(members: seq<int>, pass: int)
    ensures forall v :: v in Addressed(members, pass) <==> v in members && v != pass
    ensures pass !in members ==> Addressed(members, pass) == members
  {
    if members != [] {
      AddressedMembers(members[1..], pass);
    }
  }

  lemma MembersOwnIndices(s: ServerState, l: int, r: int)
    requires Inv(s) && 0 <= l < |s.lobbies| && s.lobbies[l].HasRoom(r)
    ensures OwnIndices(s.users, s.lobbies[l].rooms[r].members)
    ensures forall v :: v in s.lobbies[l].rooms[r].members ==> 0 <= v < |s.users|
  {
    var members := s.lobbies[l].rooms[r].members;
    assert MembersAgree(s.users, s.lobbies[l], l) && RoomAgrees(s.users, members, l, r);
    forall i | 0 <= i < |members| ensures UserAt(s.users, members[i]).index == members[i] {
      assert members[i] in members && UserInv(s.users, s.free, members[i]);
    }
  }

  // The members that remain when u leaves.
  function Remaining(members: seq<int>, u: int): seq<int> {
    var i := IndexOf(members, u);
    if i == |members| then members else Erase(members, i)
  }

  lemma RemainingByHead(members: seq<int>, u: int)
    requires members != []
    ensures Remaining(members, u) ==
            if members[0] == u then members[1..] else [members[0]] + Remaining(members[1..], u)
  {
    var rest := members[1..];
    var j := IndexOf(rest, u);
    if members[0] != u {
      assert IndexOf(members, u) == 1 + j;
      if j < |rest| {
        assert Erase(members, 1 + j) == [members[0]] + Erase(rest, j);
      } else {
        assert members == [members[0]] + rest;
      }
    }
  }

  // Everyone left in a room is told that the user with this ID left.
  lemma NotifyLeaveDelivers(users: seq<UserState>, room: RoomState, u: int, id: string)
    requires RoomShape(room) && OwnIndices(users, room.members)
    requires forall v :: v in room.members ==> 0 <= v
    ensures NotifyLeave(users, room.Leave(u).0, id) == Deliver(users, Remaining(room.members, u), LeaveUserNtf(id))
  {
    var rest := room.Leave(u).0.members;
    LeaveRoomShape(room, u);
    assert rest == Remaining(room.members, u);
    assert OwnIndices(users, rest);
    SendToAllDelivers(users, rest, -1, LeaveUserNtf(id));
    AddressedMembers(rest, -1);
  }

  // Whether the room index that a user still carries leads to a room.
  predicate CarriesRoom(s: ServerState, u: int) {
    s.HasLobby(s.User(u).lobby) && s.lobbies[s.User(u).lobby].HasRoom(s.User(u).room)
  }

  /**
   * Exactly who hears of a close. For a user in a room: the members that remain, once each, in entry order, and
   * so nobody when the room was emptied. For any other user: nobody once R6 is repaired; as written, all members
   * of the room that its stale room index happens to name.
   */
  lemma CloseNotifies(p: Patch, s: ServerState, session: int)
    requires Inv(s) && s.GetUser(session).Found?
    ensures var u := s.bySession[session];
            var user := s.User(u);
            CloseSession(p, s, session).sent ==
            if user.domain == DomainRoom || (CarriesRoom(s, u) && !p.notifyIfMember)
            then Deliver(s.users, Remaining(s.lobbies[user.lobby].rooms[user.room].members, u), LeaveUserNtf(user.id))
            else []
  {
    var u := s.bySession[session];
    var user := s.User(u);
    assert UserInv(s.users, s.free, u) && PlaceExists(user, s.lobbies);
    if CarriesRoom(s, u) {
      NoticesOfLeaving(s, u);
      if user.domain != DomainRoom {
        StaleRoomUntouched(s, u);
      }
    }
  }

  // Taking user u out of the room it carries, and whom that is told to.
  lemma NoticesOfLeaving(s: ServerState, u: int)
    requires Inv(s) && 0 <= u < |s.users| && CarriesRoom(s, u)
    ensures var user := s.User(u);
            var room := s.lobbies[user.lobby].rooms[user.room];
            && NotifyLeave(s.users, room.Leave(u).0, user.id)
               == Deliver(s.users, Remaining(room.members, u), LeaveUserNtf(user.id))
            && (user.domain == DomainRoom ==> room.Leave(u).1 == NONE)
  {
    var user := s.User(u);
    var room := s.lobbies[user.lobby].rooms[user.room];
    assert LobbyShape(s.lobbies[user.lobby]) && RoomShape(room) && MembersAgree(s.users, s.lobbies[user.lobby], user.lobby);
    assert RoomAgrees(s.users, room.members, user.lobby, user.room);
    LeaveRoomShape(room, u);
    MembersOwnIndices(s, user.lobby, user.room);
    NotifyLeaveDelivers(s.users, room, u, user.id);
  }

  /**
   * R6, exactly: closing a user that is in no room still sends a notice if and only if R6 is not repaired and the
   * room it last was in (by index, in the lobby it last was in) has members.
   */
  lemma SpuriousLeaveNotice(p: Patch, s: ServerState, session: int)
    requires Inv(s) && s.GetUser(session).Found? && s.User(s.bySession[session]).domain != DomainRoom
    ensures var u := s.bySession[session];
            CloseSession(p, s, session).sent != [] <==>
            !p.notifyIfMember && CarriesRoom(s, u) && s.lobbies[s.User(u).lobby].rooms[s.User(u).room].members != []
  {
    var u := s.bySession[session];
    var user := s.User(u);
    CloseNotifies(p, s, session);
    assert UserInv(s.users, s.free, u);
    if CarriesRoom(s, u) {
      StaleRoomUntouched(s, u);
      assert MembersAgree(s.users, s.lobbies[user.lobby], user.lobby);
      assert RoomAgrees(s.users, s.lobbies[user.lobby].rooms[user.room].members, user.lobby, user.room);
      assert Remaining(s.lobbies[user.lobby].rooms[user.room].members, u) == s.lobbies[user.lobby].rooms[user.room].members;
    }
  }

  // User v is to hear of the close of user u: it is another member of the room that the notice goes to.
  ghost predicate Hears(p: Patch, s: ServerState, u: int, v: int) {
    && CarriesRoom(s, u) && (s.User(u).domain == DomainRoom || !p.notifyIfMember)
    && v in s.lobbies[s.User(u).lobby].rooms[s.User(u).room].members && v != u
  }

  ghost predicate IsSentTo(sent: seq<Sent>, session: int) {
    exists i :: 0 <= i < |sent| && sent[i].session == session
  }

  /**
   * Exactly when a closing session is told of its own close: if and only if somebody who is to hear of it carries
   * that session's number.
   */
  lemma CloserIsToldIff(p: Patch, s: ServerState, session: int)
    requires Inv(s) && s.GetUser(session).Found?
    ensures IsSentTo(CloseSession(p, s, session).sent, session) <==>
            exists v :: Hears(p, s, s.bySession[session], v) && s.User(v).session == session
  {
    var u := s.bySession[session];
    var user := s.User(u);
    CloseNotifies(p, s, session);
    assert UserInv(s.users, s.free, u) && PlaceExists(user, s.lobbies);
    if user.domain == DomainRoom || (CarriesRoom(s, u) && !p.notifyIfMember) {
      var members := s.lobbies[user.lobby].rooms[user.room].members;
      assert LobbyShape(s.lobbies[user.lobby]) && RoomShape(s.lobbies[user.lobby].rooms[user.room]);
      RemainingMembers(members, u);
      DeliveredTo(s, Remaining(members, u), LeaveUserNtf(user.id), session);
      forall v ensures v in Remaining(members, u) <==> Hears(p, s, u, v) {
      }
    }
  }

  lemma DeliveredTo(s: ServerState, to: seq<int>, packet: Packet, session: int)
    ensures IsSentTo(Deliver(s.users, to, packet), session) <==> exists v :: v in to && s.User(v).session == session
  {
    var sent := Deliver(s.users, to, packet);
    if IsSentTo(sent, session) {
      var i :| 0 <= i < |sent| && sent[i].session == session;
      assert to[i] in to && s.User(to[i]).session == session;
    }
    if v :| v in to && s.User(v).session == session {
      var i :| 0 <= i < |to| && to[i] == v;
      assert sent[i].session == session;
    }
  }

  lemma RemainingMembers(members: seq<int>, u: int)
    requires NoDup(members)
    ensures forall v :: v in Remaining(members, u) <==> v in members && v != u
  {
    if u in members {
      EraseMember(members, u);
    }
  }

  /** While sessions lead to their own users, no close is told to the closing session. */
  lemma CloserIsNotTold(p: Patch, s: ServerState, session: int)
    requires Inv(s) && SessionsInv(s) && session in s.bySession
    ensures !IsSentTo(CloseSession(p, s, session).sent, session)
  {
    var u := s.bySession[session];
    CloserIsToldIff(p, s, session);
    forall v | Hears(p, s, u, v) ensures s.User(v).session != session {
      HearersAreLinked(p, s, u, v);
    }
  }

  lemma HearersAreLinked(p: Patch, s: ServerState, u: int, v: int)
    requires Inv(s) && SessionsInv(s) && Hears(p, s, u, v)
    ensures 0 <= v < |s.users| && Linked(s, v)
  {
    var user := s.User(u);
    var members := s.lobbies[user.lobby].rooms[user.room].members;
    assert MembersAgree(s.users, s.lobbies[user.lobby], user.lobby) && RoomAgrees(s.users, members, user.lobby, user.room);
    assert UserInv(s.users, s.free, v);
  }

  /**
   * Lobby b is lobby a without user u: its slot, its entries in both dictionaries and its place in a room are gone.
   * Nothing else moved; in particular a room it was not in is the same room, use, title and all.
   */
  ghost predicate WithoutUser(a: LobbyState, b: LobbyState, u: int) {
    && b.index == a.index && b.max == a.max && |b.slots| == |a.slots| && |b.rooms| == |a.rooms|
    && (forall i :: 0 <= i < |a.slots| ==> b.slots[i] == if a.slots[i] == Some(u) then None else a.slots[i])
    && b.byIndex == a.byIndex - {u}
    && (forall k :: k in b.byId <==> k in a.byId && a.byId[k] != u)
    && (forall k :: k in b.byId ==> b.byId[k] == a.byId[k])
    && forall r :: 0 <= r < |a.rooms| ==> RoomWithout(a.rooms[r], b.rooms[r], u)
  }

  ghost predicate RoomWithout(a: RoomState, b: RoomState, u: int) {
    if u in a.members then
      && b.members == Remaining(a.members, u)
      && b == if b.members == [] then a.Cleared() else a.(members := b.members)
    else b == a
  }

  lemma LeavingRoomTakesUserOut(room: RoomState, u: int)
    requires RoomShape(room)
    ensures RoomWithout(room, room.Leave(u).0, u)
  {
  }

  // A lobby that does not list the user stays as it is.
  lemma UsersElsewhere(p: Patch, s: ServerState, l: int, u: int)
    requires Inv(s) && SlotsInv(s) && IdsInv(p, s) && 0 <= l < |s.lobbies| && 0 <= u < |s.users|
    requires !s.users[u].Placed() || s.users[u].lobby != l
    ensures WithoutUser(s.lobbies[l], s.lobbies[l], u)
  {
    var a := s.lobbies[l];
    assert MembersAgree(s.users, a, l) && SlotsAgree(a) && IdsAgree(p, s.users, a);
    forall r | 0 <= r < |a.rooms| ensures u !in a.rooms[r].members {
      assert RoomAgrees(s.users, a.rooms[r].members, l, r);
    }
  }

  // The key that leaves with the user is the only one that led to it.
  lemma LeaveTakesKeyOut(p: Patch, users: seq<UserState>, a: LobbyState, u: int)
    requires IdsAgree(p, users, a) && (u in a.byIndex ==> a.byIndex[u] == u)
    ensures var b := a.Leave(p, u, UserAt(users, u).id).0;
            && (forall k :: k in b.byId <==> k in a.byId && a.byId[k] != u)
            && forall k :: k in b.byId ==> b.byId[k] == a.byId[k]
  {
    assert u in a.byIndex ==> HasKey(a.byId, LobbyKey(p, u, UserAt(users, u).id), u);
  }

  // Taking u out of its room, or out of none, and then out of the lobby.
  lemma LeaveTakesUserOut(p: Patch, users: seq<UserState>, a: LobbyState, rooms: seq<RoomState>, u: int)
    requires p.clearByUser && SlotsAgree(a) && (u in a.byIndex ==> a.byIndex[u] == u) && IdsAgree(p, users, a)
    requires |rooms| == |a.rooms| && forall r :: 0 <= r < |a.rooms| ==> RoomWithout(a.rooms[r], rooms[r], u)
    ensures WithoutUser(a, a.(rooms := rooms).Leave(p, u, UserAt(users, u).id).0, u)
  {
    ClearsOwnSlot(p, a.slots, u);
    LeaveTakesKeyOut(p, users, a, u);
    LeaveIgnoresRooms(p, a, rooms, u, UserAt(users, u).id);
  }

  // What leaving does to slots and dictionaries does not depend on the rooms.
  lemma LeaveIgnoresRooms(p: Patch, a: LobbyState, rooms: seq<RoomState>, u: int, id: string)
    ensures a.(rooms := rooms).Leave(p, u, id).0 == a.Leave(p, u, id).0.(rooms := rooms)
    ensures a.Leave(p, u, id).0.rooms == a.rooms && a.Leave(p, u, id).0.slots == ClearSlot(p, a.slots, u)
    ensures a.Leave(p, u, id).0.index == a.index && a.Leave(p, u, id).0.max == a.max
    ensures (u in a.byIndex ==> a.byIndex[u] == u) ==> a.Leave(p, u, id).0.byIndex == a.byIndex - {u}
  {
  }

  // No room of the lobby but the one the user's index names has the user.
  lemma RoomsWithoutUser(s: ServerState, u: int, l: int)
    requires Inv(s) && 0 <= u < |s.users| && s.users[u].lobby == l && 0 <= l < |s.lobbies|
    ensures var rooms, k := s.lobbies[l].rooms, s.users[u].room;
            forall r :: 0 <= r < |rooms| ==> RoomWithout(rooms[r], if r == k then rooms[r].Leave(u).0 else rooms[r], u)
  {
    var rooms, k := s.lobbies[l].rooms, s.users[u].room;
    assert LobbyShape(s.lobbies[l]) && MembersAgree(s.users, s.lobbies[l], l);
    forall r | 0 <= r < |rooms| ensures RoomWithout(rooms[r], if r == k then rooms[r].Leave(u).0 else rooms[r], u) {
      assert RoomAgrees(s.users, rooms[r].members, l, r);
      LeavingRoomTakesUserOut(rooms[r], u);
    }
  }

  // The lobby that the user's index names, after the teardown.
  function LobbyAfterLeaveAll(p: Patch, s: ServerState, u: int): LobbyState
    requires 0 <= u < |s.users| && 0 <= s.users[u].lobby < |s.lobbies|
  {
    var a, k := s.lobbies[s.users[u].lobby], s.users[u].room;
    a.(rooms := if a.HasRoom(k) then a.rooms[k := a.rooms[k].Leave(u).0] else a.rooms).Leave(p, u, s.users[u].id).0
  }

  lemma LeaveAllActsOnOneLobby(p: Patch, s: ServerState, session: int)
    requires Inv(s) && s.GetUser(session).Found?
    ensures var u := s.bySession[session];
            LeaveAll(p, s, u).0.lobbies ==
            if s.HasLobby(s.users[u].lobby) then s.lobbies[s.users[u].lobby := LobbyAfterLeaveAll(p, s, u)] else s.lobbies
  {
    var u := s.bySession[session];
    assert UserInv(s.users, s.free, u);
    if s.HasLobby(s.users[u].lobby) {
      assert LobbyShape(s.lobbies[s.users[u].lobby]);
      LeaveIgnoresIdOfStranger(p, s.lobbies[s.users[u].lobby], u, s.users[u].id);
    }
  }

  // For a user the lobby does not have, the ID makes no difference.
  lemma LeaveIgnoresIdOfStranger(p: Patch, a: LobbyState, u: int, id: string)
    ensures u !in a.byIndex ==> a.Leave(p, u, id) == a.Leave(p, u, "")
  {
  }

  lemma LeaveAllTakesUserOut(p: Patch, s: ServerState, session: int)
    requires p.clearByUser && Inv(s) && SlotsInv(s) && IdsInv(p, s) && s.GetUser(session).Found?
    ensures var u := s.bySession[session];
            var s1 := LeaveAll(p, s, u).0;
            && |s1.lobbies| == |s.lobbies|
            && forall l :: 0 <= l < |s.lobbies| ==> WithoutUser(s.lobbies[l], s1.lobbies[l], u)
  {
    var u := s.bySession[session];
    assert UserInv(s.users, s.free, u);
    LeaveAllActsOnOneLobby(p, s, session);
    EveryLobbyWithoutUser(p, s, u, LeaveAll(p, s, u).0.lobbies);
  }

  lemma EveryLobbyWithoutUser(p: Patch, s: ServerState, u: int, after: seq<LobbyState>)
    requires p.clearByUser && Inv(s) && SlotsInv(s) && IdsInv(p, s) && 0 <= u < |s.users|
    requires after ==
             if s.HasLobby(s.users[u].lobby) then s.lobbies[s.users[u].lobby := LobbyAfterLeaveAll(p, s, u)] else s.lobbies
    ensures |after| == |s.lobbies| && forall l :: 0 <= l < |s.lobbies| ==> WithoutUser(s.lobbies[l], after[l], u)
  {
    assert PlaceExists(s.users[u], s.lobbies);
    forall l | 0 <= l < |s.lobbies| ensures WithoutUser(s.lobbies[l], after[l], u) {
      if l == s.users[u].lobby {
        OwnLobbyWithoutUser(p, s, u);
      } else {
        UsersElsewhere(p, s, l, u);
      }
    }
  }

  lemma OwnLobbyWithoutUser(p: Patch, s: ServerState, u: int)
    requires p.clearByUser && Inv(s) && SlotsInv(s) && IdsInv(p, s) && 0 <= u < |s.users|
    requires s.HasLobby(s.users[u].lobby)
    ensures WithoutUser(s.lobbies[s.users[u].lobby], LobbyAfterLeaveAll(p, s, u), u)
  {
    var a, k := s.lobbies[s.users[u].lobby], s.users[u].room;
    assert SlotsAgree(a) && LobbyShape(a) && IdsAgree(p, s.users, a);
    RoomsWithoutUser(s, u, s.users[u].lobby);
    LeaveTakesUserOut(p, s.users, a, if a.HasRoom(k) then a.rooms[k := a.rooms[k].Leave(u).0] else a.rooms, u);
  }

  /** Server s' is server s without the user of the session, and for all others exactly the same. */
  ghost predicate OnlyItsUserGone(p: Patch, s: ServerState, s': ServerState, session: int)
    requires session in s.bySession && 0 <= s.bySession[session] < |s.users|
  {
    var u := s.bySession[session];
    && s'.users == s.users[u := s.users[u].Cleared()]
    && |s'.lobbies| == |s.lobbies|
    && (forall l :: 0 <= l < |s.lobbies| ==> WithoutUser(s.lobbies[l], s'.lobbies[l], u))
    && s'.bySession == s.bySession - {session}
    && s'.byId == s.byId - {if p.keyByText then Text(s.users[u].id) else LocalCopy}
    && forall other :: other != session ==> s'.GetUser(other) == s.GetUser(other)
  }

  /**
   * Non-interference, with R1 and R2 repaired: closing a session takes its user out of every lobby and room and
   * changes no other user, slot, membership, order within a room, ID or session.
   */
  lemma CloseTouchesOnlyItsUser(p: Patch, s: ServerState, session: int)
    requires p.eraseBySession && p.clearByUser
    requires Inv(s) && SlotsInv(s) && IdsInv(p, s) && SessionsInv(s) && session in s.bySession
    ensures OnlyItsUserGone(p, s, CloseSession(p, s, session).state, session)
  {
    var u := s.bySession[session];
    LeaveAllTakesUserOut(p, s, session);
    LeaveAllChangesItsUser(p, s, session);
    LeaveAllKeepsIdentities(p, s, u);
    assert UserInv(s.users, s.free, u);
  }

  // The manager after a close.
  lemma CloseOfUser(p: Patch, s: ServerState, session: int)
    requires Inv(s) && s.GetUser(session).Found?
    ensures var u := s.bySession[session];
            var s1 := CloseSession(p, s, session).state;
            && Inv(s1) && s1.free == s.free + [u] && s1.users == s.users[u := s.users[u].Cleared()]
            && s1.bySession == s.bySession - {if p.eraseBySession then session else u}
            && s1.byId == s.byId - {if p.keyByText then Text(s.users[u].id) else LocalCopy}
            && s1.lobbies == LeaveAll(p, s, u).0.lobbies
  {
    LeaveAllChangesItsUser(p, s, session);
    LeaveAllKeepsIdentities(p, s, s.bySession[session]);
    LeaveAllKeepsInv(p, s, session);
    StepKeepsInv(p, s, Close(session));
    assert UserInv(s.users, s.free, s.bySession[session]);
  }

  /**
   * R1, exactly: closing a session leaves every other session's lookup alone if and only if no other session leads
   * to the closed user's pool entry, nor (unless R1 is repaired) is numbered like it. No assumption is made on what
   * earlier closes did to the dictionary.
   */
  lemma CloseForgetsTheWrongSession(p: Patch, s: ServerState, session: int)
    requires Inv(s) && s.GetUser(session).Found?
    ensures var u := s.bySession[session];
            var s' := CloseSession(p, s, session).state;
            (forall other :: other != session ==> s'.GetUser(other) == s.GetUser(other)) <==>
            (forall other :: other in s.bySession && other != session ==>
               (p.eraseBySession || other != u) && s.bySession[other] != u)
  {
    var u := s.bySession[session];
    var s' := CloseSession(p, s, session).state;
    CloseOfUser(p, s, session);
    if forall other :: other != session ==> s'.GetUser(other) == s.GetUser(other) {
      forall other | other in s.bySession && other != session
        ensures (p.eraseBySession || other != u) && s.bySession[other] != u
      {
        assert s'.GetUser(other) == s.GetUser(other);
      }
    }
  }

  /**
   * R1, over one close: sessions go on leading to their own users if and only if R1 is repaired or the closed user's
   * pool index was the closed session.
   */
  lemma CloseKeepsSessionsIff(p: Patch, s: ServerState, session: int)
    requires Inv(s) && SessionsInv(s) && session in s.bySession
    ensures SessionsInv(CloseSession(p, s, session).state) <==> p.eraseBySession || s.bySession[session] == session
  {
    var u := s.bySession[session];
    var s' := CloseSession(p, s, session).state;
    CloseOfUser(p, s, session);
    if p.eraseBySession || u == session {
      forall v | 0 <= v < |s.users| && v != u && s.users[v].confirmed ensures Linked(s', v) == Linked(s, v) {
        assert s'.users[v] == s.users[v];
      }
    } else {
      assert session in s'.bySession && !s'.users[s'.bySession[session]].confirmed;
    }
  }
}
