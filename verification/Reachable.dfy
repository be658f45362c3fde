/** Theorems about every state the server can reach, for the code as written and for every choice of repairs. */
module Reachable {
  import opened Types
  import opened State
  import opened Handlers
  import opened Invariant
  import Slots
  import opened Registry
  import Rooms
  import Runs

  ghost predicate Reached(p: Patch, cfg: Config, es: seq<Event>, s: ServerState) {
    ValidConfig(cfg) && Runs.Takes(p, Init(cfg), es, s)
  }

  lemma ReachedInv(p: Patch, cfg: Config, es: seq<Event>, s: ServerState)
    requires Reached(p, cfg, es, s)
    ensures Inv(s)
  {
    InitKeepsInv(cfg);
    RunKeepsInv(p, Init(cfg), es);
  }

  // User u is somewhere in lobby l: in its index dictionary or in one of its rooms.
  ghost predicate ListedIn(lobby: LobbyState, u: int) {
    u in lobby.byIndex || exists r :: 0 <= r < |lobby.rooms| && u in lobby.rooms[r].members
  }

  /**
   * A user is in LOBBY or ROOM exactly when some lobby has it, and then that lobby is the one it names, and no
   * other.
   */
  lemma MembershipIsExact(p: Patch, cfg: Config, es: seq<Event>, s: ServerState, u: int)
    requires Reached(p, cfg, es, s) && 0 <= u < |s.users|
    ensures s.users[u].Placed() ==> s.HasLobby(s.users[u].lobby)
    ensures forall l :: 0 <= l < |s.lobbies| ==>
              (u in s.lobbies[l].byIndex <==> s.users[u].Placed() && l == s.users[u].lobby)
  {
    ReachedInv(p, cfg, es, s);
    assert PlaceExists(s.users[u], s.lobbies);
    assert forall l :: 0 <= l < |s.lobbies| ==> MembersAgree(s.users, s.lobbies[l], l);
  }

  lemma NobodyListsTheIdle(s: ServerState, u: int)
    requires Inv(s) && 0 <= u < |s.users| && !s.users[u].Placed()
    ensures forall l :: 0 <= l < |s.lobbies| ==> !ListedIn(s.lobbies[l], u)
  {
    forall l | 0 <= l < |s.lobbies| ensures !ListedIn(s.lobbies[l], u) {
      assert MembersAgree(s.users, s.lobbies[l], l);
      assert forall r :: 0 <= r < |s.lobbies[l].rooms| ==> RoomAgrees(s.users, s.lobbies[l].rooms[r].members, l, r);
    }
  }

  /** No dangling membership: a free entry is listed nowhere, so the next login starts out listed nowhere. */
  lemma FreeIsListedNowhere(p: Patch, cfg: Config, es: seq<Event>, s: ServerState, u: int)
    requires Reached(p, cfg, es, s) && u in s.free
    ensures forall l :: 0 <= l < |s.lobbies| ==> !ListedIn(s.lobbies[l], u)
  {
    ReachedInv(p, cfg, es, s);
    assert 0 <= u < |s.users| && UserInv(s.users, s.free, u);
    NobodyListsTheIdle(s, u);
  }

  /** A room that lists a user is the one found from the user's own lobby and room index, stale or not. */
  lemma RoomIsFoundFromUser(p: Patch, cfg: Config, es: seq<Event>, s: ServerState, l: int, r: int, u: int)
    requires Reached(p, cfg, es, s)
    requires 0 <= l < |s.lobbies| && s.lobbies[l].HasRoom(r) && u in s.lobbies[l].rooms[r].members
    ensures s.User(u).domain == DomainRoom && s.User(u).lobby == l && s.User(u).room == r
    ensures s.HasLobby(s.User(u).lobby) && s.lobbies[s.User(u).lobby].HasRoom(s.User(u).room)
  {
    ReachedInv(p, cfg, es, s);
    assert MembersAgree(s.users, s.lobbies[l], l) && RoomAgrees(s.users, s.lobbies[l].rooms[r].members, l, r);
  }

  /** Closing a session leaves its user listed in no lobby and no room, unconfirmed, and last in the free deque. */
  lemma CloseRemovesEverywhere(p: Patch, cfg: Config, es: seq<Event>, s: ServerState, session: int)
    requires Reached(p, cfg, es, s) && s.GetUser(session).Found?
    ensures var u := s.bySession[session];
            var s' := CloseSession(p, s, session).state;
            && s'.users[u] == s.users[u].Cleared()
            && s'.free == s.free + [u]
            && forall l :: 0 <= l < |s'.lobbies| ==> !ListedIn(s'.lobbies[l], u)
  {
    ReachedInv(p, cfg, es, s);
    var u := s.bySession[session];
    LeaveAllKeepsInv(p, s, session);
    LeaveAllKeepsIdentities(p, s, u);
    var s1 := LeaveAll(p, s, u).0;
    assert UserInv(s.users, s.free, u) && SameIdentity(s.users[u], s1.users[u]);
    StepKeepsInv(p, s, Close(session));
    NobodyListsTheIdle(CloseSession(p, s, session).state, u);
  }

  ghost function ConfirmedUsers(users: seq<UserState>): set<int> {
    set u | 0 <= u < |users| && users[u].confirmed
  }

  lemma {:induction false} RangeSize(n: nat, free: seq<int>, used: set<int>)
    requires NoDup(free) && (forall i :: 0 <= i < |free| ==> 0 <= free[i] < n)
    requires forall u :: u in used <==> 0 <= u < n && u !in free
    ensures |free| + |used| == n
  {
    var frees := set u | u in free;
    SeqSetSize(free, frees);
    RangeSetSize(n, frees + used);
  }

  lemma {:induction false} SeqSetSize(s: seq<int>, elements: set<int>)
    requires NoDup(s) && forall u :: u in elements <==> u in s
    ensures |elements| == |s|
  {
    if s == [] {
      assert forall u :: u in elements ==> u in s;
    } else {
      var last := s[|s| - 1];
      assert s == s[..|s| - 1] + [last];
      SeqSetSize(s[..|s| - 1], elements - {last});
      assert last in elements && elements == (elements - {last}) + {last};
    }
  }

  lemma {:induction false} RangeSetSize(n: nat, all: set<int>)
    requires forall u :: u in all <==> 0 <= u < n
    ensures |all| == n
  {
    if n == 0 {
      assert forall u :: u in all ==> 0 <= u < n;
    } else {
      RangeSetSize(n - 1, all - {n - 1});
      assert n - 1 in all && all == (all - {n - 1}) + {n - 1};
    }
  }

  /**
   * Pool conservation: the free deque never lists an entry twice, shares none with the confirmed users, and
   * together they are the whole pool, whose entries keep their own positions as index.
   */
  lemma PoolIsConserved(p: Patch, cfg: Config, es: seq<Event>, s: ServerState)
    requires Reached(p, cfg, es, s)
    ensures |s.users| == cfg.maxUsers && NoDup(s.free)
    ensures forall u :: 0 <= u < cfg.maxUsers ==> s.users[u].index == u && (u in s.free <==> !s.users[u].confirmed)
    ensures |s.free| + |ConfirmedUsers(s.users)| == cfg.maxUsers
  {
    ReachedInv(p, cfg, es, s);
    InitKeepsInv(cfg);
    RunKeepsLimits(p, Init(cfg), es);
    forall u | 0 <= u < |s.users| ensures s.users[u].index == u && (u in s.free <==> !s.users[u].confirmed) {
      assert UserInv(s.users, s.free, u);
    }
    RangeSize(|s.users|, s.free, ConfirmedUsers(s.users));
  }

  // Limits that no step changes.
  ghost predicate SameLimits(s: ServerState, s': ServerState) {
    && |s'.users| == |s.users| && |s'.lobbies| == |s.lobbies|
    && forall l :: 0 <= l < |s.lobbies| ==> SameLobbyLimits(s.lobbies[l], s'.lobbies[l])
  }

  ghost predicate SameLobbyLimits(a: LobbyState, b: LobbyState) {
    && b.index == a.index && b.max == a.max && |b.slots| == |a.slots| && |b.rooms| == |a.rooms|
    && forall r :: 0 <= r < |a.rooms| ==> b.rooms[r].max == a.rooms[r].max
  }

  lemma {:induction false} RunKeepsLimits(p: Patch, s: ServerState, es: seq<Event>)
    requires Inv(s) && Run(p, s, es).Ran?
    ensures SameLimits(s, Run(p, s, es).state)
    decreases |es|
  {
    if es != [] {
      var s1, s2 := Step(p, s, es[0]).state, Run(p, s, es).state;
      var l, r, m := Rooms.StepMovesOneRoom(p, s, es[0]);
      StepKeepsInv(p, s, es[0]);
      RunKeepsLimits(p, s1, es[1..]);
      forall k | 0 <= k < |s.lobbies| ensures SameLobbyLimits(s.lobbies[k], s2.lobbies[k]) {
        assert Rooms.LobbyMove(s.lobbies[k], s1.lobbies[k], r, if k == l then m else Rooms.Stay);
        assert SameLobbyLimits(s1.lobbies[k], s2.lobbies[k]);
      }
    }
  }

  // Error codes that a handler tests for although no reachable state produces them.
  function DeadCodes(e: Event): set<Code> {
    match e
    case LobbyEnterReq(_, _) => {LOBBY_ENTER_USER_DUPLICATION}
    case LobbyLeaveReq(_) => {LOBBY_LEAVE_INVALID_LOBBY_INDEX, LOBBY_LEAVE_USER_INVALID_UNIQUEINDEX}
    case RoomEnterReq(_, _, _, _) => {ROOM_ENTER_INVALID_LOBBY_INDEX, ROOM_ENTER_CREATE_FAIL}
    case RoomLeaveReq(_) => {ROOM_ENTER_INVALID_LOBBY_INDEX, ROOM_ENTER_INVALID_ROOM_INDEX,
                             ROOM_LEAVE_NOT_CREATED, ROOM_LEAVE_NOT_MEMBER}
    case RoomChatReq(_, _) => {ROOM_CHAT_INVALID_LOBBY_INDEX, ROOM_CHAT_INVALID_ROOM_INDEX}
    case _ => {}
  }

  // A placed user is where it says: in that lobby's dictionary, and in that room's list if it is in a room.
  lemma PlacedUserIsListed(s: ServerState, u: int)
    requires Inv(s) && 0 <= u < |s.users| && s.users[u].Placed()
    ensures s.users[u].index == u && s.users[u].confirmed
    ensures s.HasLobby(s.users[u].lobby) && u in s.lobbies[s.users[u].lobby].byIndex
    ensures s.users[u].domain == DomainRoom ==>
              && s.lobbies[s.users[u].lobby].HasRoom(s.users[u].room)
              && u in s.lobbies[s.users[u].lobby].rooms[s.users[u].room].members
              && s.lobbies[s.users[u].lobby].rooms[s.users[u].room].Leave(u).1 == NONE
  {
    var l, r := s.users[u].lobby, s.users[u].room;
    assert UserInv(s.users, s.free, u) && PlaceExists(s.users[u], s.lobbies);
    assert LobbyShape(s.lobbies[l]) && MembersAgree(s.users, s.lobbies[l], l);
    if s.users[u].domain == DomainRoom {
      assert RoomAgrees(s.users, s.lobbies[l].rooms[r].members, l, r);
      LeaveRoomShape(s.lobbies[l].rooms[r], u);
    }
  }

  lemma LobbyEnterCodeIsLive(p: Patch, s: ServerState, session: int, lobbyId: int)
    requires Inv(s)
    ensures var o := LobbyEnter(p, s, session, lobbyId);
            o.Done? ==> o.code !in DeadCodes(LobbyEnterReq(session, lobbyId))
  {
    if s.GetUser(session).Found? {
      var u := s.bySession[session];
      assert UserInv(s.users, s.free, u);
      if !s.users[u].Placed() {
        NobodyListsTheIdle(s, u);
        assert s.HasLobby(lobbyId) ==> !ListedIn(s.lobbies[lobbyId], u);
      }
    }
  }

  lemma LobbyLeaveCodeIsLive(p: Patch, s: ServerState, session: int)
    requires Inv(s)
    ensures var o := LobbyLeave(p, s, session); o.Done? && o.code !in DeadCodes(LobbyLeaveReq(session))
  {
    if s.GetUser(session).Found? {
      var u := s.bySession[session];
      assert UserInv(s.users, s.free, u);
      if s.users[u].Placed() {
        PlacedUserIsListed(s, u);
      }
    }
  }

  lemma RoomEnterCodeIsLive(s: ServerState, session: int, isCreate: bool, roomIndex: int, title: string)
    requires Inv(s)
    ensures var o := RoomEnter(s, session, isCreate, roomIndex, title);
            o.Done? && o.code !in DeadCodes(RoomEnterReq(session, isCreate, roomIndex, title))
  {
    if s.GetUser(session).Found? && s.User(s.bySession[session]).Placed() {
      PlacedUserIsListed(s, s.bySession[session]);
    }
  }

  lemma RoomCodesAreLive(p: Patch, s: ServerState, session: int, msg: string)
    requires Inv(s)
    ensures var o := RoomLeave(s, session); o.Done? && o.code !in DeadCodes(RoomLeaveReq(session))
    ensures var o := RoomChat(p, s, session, msg); o.Done? && o.code !in DeadCodes(RoomChatReq(session, msg))
  {
    if s.GetUser(session).Found? && s.User(s.bySession[session]).Placed() {
      PlacedUserIsListed(s, s.bySession[session]);
    }
  }

  lemma StepCodeIsLive(p: Patch, s: ServerState, e: Event)
    requires Inv(s) && Step(p, s, e).Done?
    ensures Step(p, s, e).code !in DeadCodes(e)
  {
    match e {
      case LobbyEnterReq(session, lobbyId) => LobbyEnterCodeIsLive(p, s, session, lobbyId);
      case LobbyLeaveReq(session) => LobbyLeaveCodeIsLive(p, s, session);
      case RoomEnterReq(session, isCreate, roomIndex, title) =>
        RoomEnterCodeIsLive(s, session, isCreate, roomIndex, title);
      case RoomLeaveReq(session) => RoomCodesAreLive(p, s, session, "");
      case RoomChatReq(session, msg) => RoomCodesAreLive(p, s, session, msg);
      case _ =>
    }
  }

  lemma {:induction false} RunCodesAreLive(p: Patch, s: ServerState, es: seq<Event>)
    requires Inv(s) && Run(p, s, es).Ran?
    ensures var codes := Run(p, s, es).codes;
            |codes| == |es| && forall i :: 0 <= i < |es| ==> codes[i] !in DeadCodes(es[i])
    decreases |es|
  {
    if es != [] {
      StepCodeIsLive(p, s, es[0]);
      StepKeepsInv(p, s, es[0]);
      RunCodesAreLive(p, Step(p, s, es[0]).state, es[1..]);
    }
  }

  /** Dead error branches: in no run does a handler return one of its dead codes. */
  lemma DeadErrorBranches(p: Patch, cfg: Config, es: seq<Event>)
    requires ValidConfig(cfg) && Run(p, Init(cfg), es).Ran?
    ensures var codes := Run(p, Init(cfg), es).codes;
            |codes| == |es| && forall i :: 0 <= i < |es| ==> codes[i] !in DeadCodes(es[i])
  {
    InitKeepsInv(cfg);
    RunCodesAreLive(p, Init(cfg), es);
  }

  /** Limits: no lobby and no room ever holds more than its maximum, although a room only tests for equality. */
  lemma LimitsHold(p: Patch, cfg: Config, es: seq<Event>, s: ServerState, l: int)
    requires Reached(p, cfg, es, s) && 0 <= l < |s.lobbies|
    ensures s.HasLobby(l) && s.lobbies[l].index == l
    ensures |s.lobbies[l].byIndex| <= s.lobbies[l].max == |s.lobbies[l].slots| == cfg.maxLobbyUsers
    ensures forall r :: 0 <= r < |s.lobbies[l].rooms| ==>
              var room := s.lobbies[l].rooms[r];
              |room.members| <= cfg.maxRoomUsers && (!room.used ==> room.members == [])
  {
    ReachedInv(p, cfg, es, s);
    LimitsAreConfigured(p, cfg, es, s, l);
    assert LobbyShape(s.lobbies[l]);
  }

  // No run changes the limits that the configuration gives.
  lemma LimitsAreConfigured(p: Patch, cfg: Config, es: seq<Event>, s: ServerState, l: int)
    requires Reached(p, cfg, es, s) && 0 <= l < |s.lobbies|
    ensures s.lobbies[l].max == cfg.maxLobbyUsers
    ensures forall r :: 0 <= r < |s.lobbies[l].rooms| ==> s.lobbies[l].rooms[r].max == cfg.maxRoomUsers
  {
    var s0 := Init(cfg);
    InitKeepsInv(cfg);
    RunKeepsLimits(p, s0, es);
    assert s0.lobbies[l] == NewLobby(l, cfg) && SameLobbyLimits(s0.lobbies[l], s.lobbies[l]);
    forall r | 0 <= r < |s.lobbies[l].rooms| ensures s.lobbies[l].rooms[r].max == cfg.maxRoomUsers {
      assert s0.lobbies[l].rooms[r] == NewRoom(r, cfg);
    }
  }

  /** Repaired R2: no run ends in undefined behaviour, and slots and dictionary agree throughout. */
  lemma RepairedRunsAreDefined(p: Patch, cfg: Config, es: seq<Event>)
    requires ValidConfig(cfg) && p.clearByUser
    ensures Run(p, Init(cfg), es).Ran? && Slots.SlotsInv(Run(p, Init(cfg), es).state)
  {
    InitKeepsInv(cfg);
    Slots.InitKeepsSlots(cfg);
    Slots.RunKeepsSlots(p, Init(cfg), es);
  }

  /** The two dictionaries of every lobby always list the same users, as written and repaired. */
  lemma LobbyDictionariesAlwaysMatch(p: Patch, cfg: Config, es: seq<Event>, s: ServerState, l: int)
    requires Reached(p, cfg, es, s) && 0 <= l < |s.lobbies|
    ensures s.lobbies[l].byId.Values == s.lobbies[l].byIndex.Keys
    ensures |s.lobbies[l].byId| == |s.lobbies[l].byIndex|
  {
    InitKeepsInv(cfg);
    InitKeepsRegistry(p, cfg);
    RunKeepsIds(p, Init(cfg), es);
    LobbyDictionariesMatch(p, s.users, s.lobbies[l]);
  }

  /** Repaired R3: no two confirmed users ever share an ID. */
  lemma IdsAreNeverShared(p: Patch, cfg: Config, es: seq<Event>, s: ServerState, u: int, v: int)
    requires Reached(p, cfg, es, s) && p.keyByText
    requires 0 <= u < |s.users| && 0 <= v < |s.users| && s.users[u].confirmed && s.users[v].confirmed
    requires s.users[u].id == s.users[v].id
    ensures u == v
  {
    InitKeepsInv(cfg);
    InitKeepsRegistry(p, cfg);
    RunKeepsIds(p, Init(cfg), es);
    assert HasKey(s.byId, Text(s.users[u].id), u) && HasKey(s.byId, Text(s.users[v].id), v);
  }

  /**
   * Repaired R1: sessions always lead to their own users; and along runs without repeated logins every confirmed
   * user keeps its session.
   */
  lemma SessionsStayBijective(p: Patch, cfg: Config, es: seq<Event>, s: ServerState)
    requires Reached(p, cfg, es, s) && p.eraseBySession
    ensures SessionsInv(s) && (Polite(p, Init(cfg), es) ==> AllLinked(s))
  {
    InitKeepsInv(cfg);
    InitKeepsRegistry(p, cfg);
    RunKeepsSessions(p, Init(cfg), es);
  }

  // Every room in use has a member.
  ghost predicate NoRoomLeaks(s: ServerState) {
    forall l, r :: 0 <= l < |s.lobbies| && 0 <= r < |s.lobbies[l].rooms| ==> NeverUsedEmpty(s.lobbies[l].rooms[r])
  }

  ghost predicate NeverUsedEmpty(room: RoomState) {
    room.used ==> room.members != []
  }

  ghost predicate RoomsHoldUsers(s: ServerState) {
    forall l, r :: 0 <= l < |s.lobbies| && 0 <= r < |s.lobbies[l].rooms| ==> HoldsUsers(s.lobbies[l].rooms[r])
  }

  ghost predicate HoldsUsers(room: RoomState) {
    room.max > 0
  }

  lemma StepLeaksNoRoom(p: Patch, s: ServerState, e: Event)
    requires Inv(s) && NoRoomLeaks(s) && RoomsHoldUsers(s) && Step(p, s, e).Done?
    ensures NoRoomLeaks(Step(p, s, e).state) && RoomsHoldUsers(Step(p, s, e).state)
  {
    var s' := Step(p, s, e).state;
    var l, r, m := Rooms.StepMovesOneRoom(p, s, e);
    forall k, q | 0 <= k < |s'.lobbies| && 0 <= q < |s'.lobbies[k].rooms|
      ensures NeverUsedEmpty(s'.lobbies[k].rooms[q]) && HoldsUsers(s'.lobbies[k].rooms[q])
    {
      assert Rooms.LobbyMove(s.lobbies[k], s'.lobbies[k], r, if k == l then m else Rooms.Stay);
      assert LobbyShape(s.lobbies[k]) && NeverUsedEmpty(s.lobbies[k].rooms[q]) && HoldsUsers(s.lobbies[k].rooms[q]);
    }
  }

  lemma {:induction false} RunLeaksNoRoom(p: Patch, s: ServerState, es: seq<Event>)
    requires Inv(s) && NoRoomLeaks(s) && RoomsHoldUsers(s) && Run(p, s, es).Ran?
    ensures NoRoomLeaks(Run(p, s, es).state)
    decreases |es|
  {
    if es != [] {
      StepLeaksNoRoom(p, s, es[0]);
      StepKeepsInv(p, s, es[0]);
      RunLeaksNoRoom(p, Step(p, s, es[0]).state, es[1..]);
    }
  }
}
