/** The slot array of a lobby and its index dictionary: when they agree, and what follows. */
module Slots {
  import opened Types
  import opened State
  import opened Handlers
  import opened Invariant

  /** The occupied slots hold distinct users, and exactly those of the index dictionary. */
  ghost predicate SlotsAgree(lobby: LobbyState) {
    && (forall i, j :: 0 <= i < j < |lobby.slots| && lobby.slots[i].Some? ==> lobby.slots[i] != lobby.slots[j])
    && (forall i :: 0 <= i < |lobby.slots| && lobby.slots[i].Some? ==> lobby.slots[i].value in lobby.byIndex)
    && forall u :: u in lobby.byIndex ==> Some(u) in lobby.slots
  }

  ghost predicate SlotsInv(s: ServerState) {
    forall l :: 0 <= l < |s.lobbies| ==> SlotsAgree(s.lobbies[l])
  }

  // Distinct values drawn from a set are at most as many as the set has.
  lemma {:induction false} DistinctFit(s: seq<int>, of: set<int>)
    requires NoDup(s) && forall i :: 0 <= i < |s| ==> s[i] in of
    ensures |s| <= |of|
  {
    if s != [] {
      var last := s[|s| - 1];
      DistinctFit(s[..|s| - 1], of - {last});
    }
  }

  /** The pigeonhole behind the unchecked dereference: below the limit, a slot is null. */
  lemma BelowLimitHasFreeSlot(lobby: LobbyState)
    requires SlotsAgree(lobby) && |lobby.byIndex| < |lobby.slots|
    ensures FirstFree(lobby.slots, 0) < |lobby.slots|
  {
    var slots := lobby.slots;
    if FirstFree(slots, 0) == |slots| {
      var users := seq(|slots|, i requires 0 <= i < |slots| => slots[i].value);
      DistinctFit(users, lobby.byIndex.Keys);
    }
  }

  lemma EnterKeepsSlots(p: Patch, lobby: LobbyState, u: int, id: string)
    requires SlotsAgree(lobby) && lobby.Enter(p, u, id).Entered?
    ensures SlotsAgree(lobby.Enter(p, u, id).lobby)
  {
    var lobby' := lobby.Enter(p, u, id).lobby;
    if lobby' != lobby {
      var k := FirstFree(lobby.slots, 0);
      forall v | v in lobby'.byIndex ensures Some(v) in lobby'.slots {
        if v == u {
          assert lobby'.slots[k] == Some(u);
        } else {
          var i :| 0 <= i < |lobby.slots| && lobby.slots[i] == Some(v);
          assert lobby'.slots[i] == Some(v);
        }
      }
    }
  }

  // Repaired: the slot cleared is the slot of the user, and none if the user has none.
  lemma ClearsOwnSlot(p: Patch, slots: seq<Option<int>>, u: int)
    requires p.clearByUser
    requires forall i, j :: 0 <= i < j < |slots| && slots[i].Some? ==> slots[i] != slots[j]
    ensures |ClearSlot(p, slots, u)| == |slots|
    ensures forall i :: 0 <= i < |slots| ==>
              ClearSlot(p, slots, u)[i] == if slots[i] == Some(u) then None else slots[i]
  {
    var k := FirstMatch(p, slots, u, 0);
    assert forall i :: 0 <= i < |slots| ==> (SlotMatches(p, slots, i, u) <==> slots[i] == Some(u));
  }

  lemma LeaveKeepsSlots(p: Patch, lobby: LobbyState, u: int, id: string)
    requires p.clearByUser && SlotsAgree(lobby)
    requires forall v :: v in lobby.byIndex ==> lobby.byIndex[v] == v
    ensures SlotsAgree(lobby.Leave(p, u, id).0)
  {
    var lobby' := lobby.Leave(p, u, id).0;
    ClearsOwnSlot(p, lobby.slots, u);
    forall v | v in lobby'.byIndex ensures Some(v) in lobby'.slots {
      var i :| 0 <= i < |lobby.slots| && lobby.slots[i] == Some(v);
      assert lobby'.slots[i] == Some(v);
    }
  }

  lemma LobbyEnterKeepsSlots(p: Patch, s: ServerState, session: int, lobbyId: int)
    requires Inv(s) && SlotsInv(s)
    ensures LobbyEnter(p, s, session, lobbyId).Done? && SlotsInv(LobbyEnter(p, s, session, lobbyId).state)
  {
    if s.GetUser(session).Found? && s.HasLobby(lobbyId) {
      var u := s.bySession[session];
      assert UserInv(s.users, s.free, u);
      var lobby := s.lobbies[lobbyId];
      assert LobbyShape(lobby);
      if |lobby.byIndex| < lobby.max {
        BelowLimitHasFreeSlot(lobby);
      }
      EnterKeepsSlots(p, lobby, u, s.User(u).id);
    }
  }

  lemma LeaveLobbyKeepsSlots(p: Patch, s: ServerState, l: int, u: int)
    requires p.clearByUser && SlotsInv(s) && 0 <= l < |s.lobbies| && LobbyShape(s.lobbies[l])
    ensures SlotsInv(s.LeaveLobby(p, l, u).0)
  {
    var lobby := s.lobbies[l];
    LeaveKeepsSlots(p, lobby, u, if u in lobby.byIndex then s.User(lobby.byIndex[u]).id else "");
  }

  lemma LeaveAllKeepsSlots(p: Patch, s: ServerState, u: int)
    requires p.clearByUser && Inv(s) && SlotsInv(s) && 0 <= u < |s.users|
    ensures SlotsInv(LeaveAll(p, s, u).0)
  {
    var l, r := s.users[u].lobby, s.users[u].room;
    if s.HasLobby(l) {
      assert LobbyShape(s.lobbies[l]);
      if s.lobbies[l].HasRoom(r) {
        var s1 := s.WithRoom(l, r, s.lobbies[l].rooms[r].Leave(s.users[u].index).0);
        LeaveRoomShape(s.lobbies[l].rooms[r], s.users[u].index);
        assert LobbyShape(s1.lobbies[l]) && SlotsAgree(s.lobbies[l]);
        LeaveLobbyKeepsSlots(p, s1, l, s.users[u].index);
      } else {
        LeaveLobbyKeepsSlots(p, s, l, s.users[u].index);
      }
    }
  }

  // Lobby b differs from lobby a in its rooms alone.
  ghost predicate SameEntries(a: LobbyState, b: LobbyState) {
    b == a.(rooms := b.rooms)
  }

  ghost predicate SameLobbyEntries(s: ServerState, s': ServerState) {
    |s'.lobbies| == |s.lobbies| && forall l :: 0 <= l < |s.lobbies| ==> SameEntries(s.lobbies[l], s'.lobbies[l])
  }

  lemma OneRoomKeepsEntries(s: ServerState, s': ServerState, l: int, r: int, room: RoomState)
    requires 0 <= l < |s.lobbies| && s.lobbies[l].HasRoom(r) && s'.lobbies == s.WithRoom(l, r, room).lobbies
    ensures SameLobbyEntries(s, s')
  {
  }

  /** What happens in rooms leaves the slots and dictionaries of all lobbies alone. */
  lemma RoomEnterKeepsEntries(s: ServerState, session: int, isCreate: bool, roomIndex: int, title: string)
    ensures RoomEnter(s, session, isCreate, roomIndex, title).Done?
    ensures SameLobbyEntries(s, RoomEnter(s, session, isCreate, roomIndex, title).state)
  {
    var o := RoomEnter(s, session, isCreate, roomIndex, title);
    if o.state != s {
      var user := s.User(s.bySession[session]);
      var choice := ChooseRoom(s.lobbies[user.lobby], isCreate, roomIndex, title);
      OneRoomKeepsEntries(s, o.state, user.lobby, choice.room, choice.state.Enter(user.index).0);
    }
  }

  lemma RoomLeaveKeepsEntries(s: ServerState, session: int)
    ensures RoomLeave(s, session).Done? && SameLobbyEntries(s, RoomLeave(s, session).state)
  {
    var o := RoomLeave(s, session);
    if o.code == NONE {
      var user := s.User(s.bySession[session]);
      OneRoomKeepsEntries(s, o.state, user.lobby, user.room, s.lobbies[user.lobby].rooms[user.room].Leave(user.index).0);
    }
  }

  lemma SameSlotsAgree(s: ServerState, s': ServerState)
    requires SlotsInv(s) && SameLobbyEntries(s, s')
    ensures SlotsInv(s')
  {
    forall l | 0 <= l < |s'.lobbies| ensures SlotsAgree(s'.lobbies[l]) {
      assert SlotsAgree(s.lobbies[l]) && SameEntries(s.lobbies[l], s'.lobbies[l]);
    }
  }

  lemma RoomEnterKeepsSlots(s: ServerState, session: int, isCreate: bool, roomIndex: int, title: string)
    requires SlotsInv(s)
    ensures RoomEnter(s, session, isCreate, roomIndex, title).Done?
    ensures SlotsInv(RoomEnter(s, session, isCreate, roomIndex, title).state)
  {
    RoomEnterKeepsEntries(s, session, isCreate, roomIndex, title);
    SameSlotsAgree(s, RoomEnter(s, session, isCreate, roomIndex, title).state);
  }

  lemma RoomLeaveKeepsSlots(s: ServerState, session: int)
    requires SlotsInv(s)
    ensures RoomLeave(s, session).Done? && SlotsInv(RoomLeave(s, session).state)
  {
    RoomLeaveKeepsEntries(s, session);
    SameSlotsAgree(s, RoomLeave(s, session).state);
  }

  lemma StepKeepsSlots(p: Patch, s: ServerState, e: Event)
    requires p.clearByUser && Inv(s) && SlotsInv(s)
    ensures Step(p, s, e).Done? && SlotsInv(Step(p, s, e).state)
  {
    match e {
      case Close(session) =>
        if s.GetUser(session).Found? {
          LeaveAllKeepsSlots(p, s, s.bySession[session]);
        }
      case LobbyEnterReq(session, lobbyId) => LobbyEnterKeepsSlots(p, s, session, lobbyId);
      case LobbyLeaveReq(session) =>
        if s.GetUser(session).Found? && s.HasLobby(s.User(s.bySession[session]).lobby) {
          var user := s.User(s.bySession[session]);
          LeaveLobbyKeepsSlots(p, s, user.lobby, user.index);
        }
      case RoomEnterReq(session, isCreate, roomIndex, title) =>
        RoomEnterKeepsSlots(s, session, isCreate, roomIndex, title);
      case RoomLeaveReq(session) => RoomLeaveKeepsSlots(s, session);
      case _ =>
    }
  }

  lemma InitKeepsSlots(cfg: Config)
    ensures SlotsInv(Init(cfg))
  {
    forall l | 0 <= l < |Init(cfg).lobbies| ensures SlotsAgree(Init(cfg).lobbies[l]) {
      assert Init(cfg).lobbies[l] == NewLobby(l, cfg);
    }
  }

  lemma {:induction false} RunKeepsSlots(p: Patch, s: ServerState, es: seq<Event>)
    requires p.clearByUser && Inv(s) && SlotsInv(s)
    ensures Run(p, s, es).Ran? && SlotsInv(Run(p, s, es).state)
    decreases |es|
  {
    if es != [] {
      StepKeepsSlots(p, s, es[0]);
      StepKeepsInv(p, s, es[0]);
      RunKeepsSlots(p, Step(p, s, es[0]).state, es[1..]);
    }
  }
}
