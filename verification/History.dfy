/** Properties that relate distant points of a run: the order of pool reuse, and who has been in a room longest. */
module History {
  import opened Types
  import opened State
  import opened Handlers
  import opened Invariant
  import Registry
  import opened Rooms

  // The users from position i on whose confirmed flag differs between two states and ends up as `to`, in order.
  function Switched(users: seq<UserState>, users': seq<UserState>, to: bool, i: nat): seq<int>
    requires i <= |users| == |users'|
    decreases |users| - i
  {
    if i == |users| then []
    else
      (if users[i].confirmed != users'[i].confirmed && users'[i].confirmed == to then [i] else [])
      + Switched(users, users', to, i + 1)
  }

  lemma {:induction false} SwitchedNone(users: seq<UserState>, users': seq<UserState>, to: bool, i: nat)
    requires i <= |users| == |users'|
    requires forall v :: i <= v < |users| && users[v].confirmed != users'[v].confirmed ==> users'[v].confirmed != to
    ensures Switched(users, users', to, i) == []
    decreases |users| - i
  {
    if i < |users| {
      SwitchedNone(users, users', to, i + 1);
    }
  }

  lemma {:induction false} SwitchedOne(users: seq<UserState>, users': seq<UserState>, u: int, to: bool, i: nat)
    requires i <= u < |users| == |users'|
    requires users[u].confirmed != to && users'[u].confirmed == to
    requires forall v :: 0 <= v < |users| && v != u ==> users'[v].confirmed == users[v].confirmed
    ensures Switched(users, users', to, i) == [u]
    decreases |users| - i
  {
    if i == u {
      SwitchedNone(users, users', to, i + 1);
    } else {
      SwitchedOne(users, users', u, to, i + 1);
    }
  }

  /** The pool entries a run hands out, or (`to` false) takes back, in the order in which it does so. */
  function Pool(p: Patch, s: ServerState, es: seq<Event>, to: bool): seq<int>
    decreases |es|
  {
    if es == [] then []
    else
      match Step(p, s, es[0])
      case Undefined => []
      case Done(s', _, _) =>
        (if |s'.users| == |s.users| then Switched(s.users, s'.users, to, 0) else []) + Pool(p, s', es[1..], to)
  }

  // What one step takes from the front of the free deque and adds at its end.
  ghost predicate Fifo(s: ServerState, s': ServerState) {
    && |s'.users| == |s.users|
    && s.free + Switched(s.users, s'.users, false, 0) == Switched(s.users, s'.users, true, 0) + s'.free
  }

  lemma AddUserIsFifo(p: Patch, s: ServerState, session: int, id: string, buffer: int)
    requires Inv(s)
    ensures Fifo(s, s.AddUser(p, session, id, buffer).0)
  {
    var (s', code) := s.AddUser(p, session, id, buffer);
    SwitchedNone(s.users, s'.users, false, 0);
    if code != NONE {
      SwitchedNone(s.users, s'.users, true, 0);
    } else {
      assert UserInv(s.users, s.free, s.free[0]);
      SwitchedOne(s.users, s'.users, s.free[0], true, 0);
    }
  }

  lemma CloseReleasesItsUser(p: Patch, s: ServerState, session: int)
    requires Inv(s) && s.GetUser(session).Found?
    ensures var s' := CloseSession(p, s, session).state;
            var u := s.bySession[session];
            && s'.free == s.free + [u] && 0 <= u < |s'.users| == |s.users| && !s'.users[u].confirmed
            && forall v :: 0 <= v < |s.users| && v != u ==> s'.users[v].confirmed == s.users[v].confirmed
  {
    var u := s.bySession[session];
    var s1 := LeaveAll(p, s, u).0;
    LeaveAllKeepsInv(p, s, session);
    Registry.LeaveAllKeepsIdentities(p, s, u);
    assert UserInv(s.users, s.free, u);
    forall v | 0 <= v < |s.users| ensures s1.users[v].confirmed == s.users[v].confirmed && s1.users[u].index == u {
      assert Registry.SameIdentity(s.users[v], s1.users[v]) && Registry.SameIdentity(s.users[u], s1.users[u]);
    }
  }

  lemma CloseIsFifo(p: Patch, s: ServerState, session: int)
    requires Inv(s)
    ensures CloseSession(p, s, session).Done? && Fifo(s, CloseSession(p, s, session).state)
  {
    var s' := CloseSession(p, s, session).state;
    if s.GetUser(session).Found? {
      CloseReleasesItsUser(p, s, session);
      SwitchedOne(s.users, s'.users, s.bySession[session], false, 0);
    } else {
      SwitchedNone(s.users, s'.users, false, 0);
    }
    SwitchedNone(s.users, s'.users, true, 0);
  }

  lemma IdentitiesAreFifo(s: ServerState, s': ServerState)
    requires Registry.SameIdentities(s, s')
    ensures Fifo(s, s')
  {
    forall v | 0 <= v < |s.users| ensures s'.users[v].confirmed == s.users[v].confirmed {
      assert Registry.SameIdentity(s.users[v], s'.users[v]);
    }
    SwitchedNone(s.users, s'.users, false, 0);
    SwitchedNone(s.users, s'.users, true, 0);
  }

  lemma StepIsFifo(p: Patch, s: ServerState, e: Event)
    requires Inv(s) && Step(p, s, e).Done?
    ensures Fifo(s, Step(p, s, e).state)
  {
    match e {
      case LoginReq(session, id, buffer) => AddUserIsFifo(p, s, session, id, buffer);
      case Close(session) => CloseIsFifo(p, s, session);
      case _ =>
        Registry.MovesKeepIdentities(p, s, e);
        IdentitiesAreFifo(s, Step(p, s, e).state);
    }
  }

  lemma QueuesCompose(free: seq<int>, back: seq<int>, out: seq<int>, free': seq<int>,
                      backs: seq<int>, outs: seq<int>, free'': seq<int>)
    requires free + back == out + free' && free' + backs == outs + free''
    ensures free + (back + backs) == (out + outs) + free''
  {
    calc {
      free + (back + backs);
      (free + back) + backs;
      (out + free') + backs;
      out + (free' + backs);
      (out + outs) + free'';
    }
  }

  /** FIFO law: what was free, then what is given back, is what is handed out, then what is free at the end. */
  lemma {:induction false} PoolIsFifo(p: Patch, s: ServerState, es: seq<Event>)
    requires Inv(s) && Run(p, s, es).Ran?
    ensures s.free + Pool(p, s, es, false) == Pool(p, s, es, true) + Run(p, s, es).state.free
    decreases |es|
  {
    if es != [] {
      var s1 := Step(p, s, es[0]).state;
      StepIsFifo(p, s, es[0]);
      StepKeepsInv(p, s, es[0]);
      PoolIsFifo(p, s1, es[1..]);
      QueuesCompose(s.free, Switched(s.users, s1.users, false, 0), Switched(s.users, s1.users, true, 0), s1.free,
                    Pool(p, s1, es[1..], false), Pool(p, s1, es[1..], true), Run(p, s, es).state.free);
    }
  }

  /** An entry given back while k others are free is the one handed out by the (k+1)-th later successful login. */
  lemma ReleasedIsReusedInTurn(p: Patch, s: ServerState, session: int, es: seq<Event>)
    requires Inv(s) && s.GetUser(session).Found?
    requires Run(p, CloseSession(p, s, session).state, es).Ran?
    ensures var handedOut := Pool(p, CloseSession(p, s, session).state, es, true);
            |s.free| < |handedOut| ==> handedOut[|s.free|] == s.bySession[session]
                                       && s.bySession[session] !in handedOut[..|s.free|]
  {
    var s', u, k := CloseSession(p, s, session).state, s.bySession[session], |s.free|;
    CloseReleasesItsUser(p, s, session);
    assert UserInv(s.users, s.free, u);
    StepKeepsInv(p, s, Close(session));
    PoolIsFifo(p, s', es);
    var handedOut, back := Pool(p, s', es, true), Pool(p, s', es, false);
    if k < |handedOut| {
      var all := s'.free + back;
      assert all == handedOut + Run(p, s', es).state.free;
      assert handedOut[k] == all[k] == u;
      assert handedOut[..k] == all[..k] == s.free;
    }
  }

  /** The server with a clock that counts steps and, for each user, the time of its latest entry into a room. */
  datatype Clocked = Clocked(server: ServerState, now: nat, entered: seq<nat>)

  function StepClocked(p: Patch, c: Clocked, e: Event): Clocked
    requires Step(p, c.server, e).Done?
  {
    var s' := Step(p, c.server, e).state;
    Clocked(s', c.now + 1,
            seq(|c.entered|, u requires 0 <= u < |c.entered| =>
              if c.server.User(u).domain != DomainRoom && s'.User(u).domain == DomainRoom then c.now
              else c.entered[u]))
  }

  function RunClocked(p: Patch, c: Clocked, es: seq<Event>): Clocked
    requires Run(p, c.server, es).Ran?
    decreases |es|
  {
    if es == [] then c else RunClocked(p, StepClocked(p, c, es[0]), es[1..])
  }

  function InitClocked(cfg: Config): Clocked {
    Clocked(Init(cfg), 0, seq(|Init(cfg).users|, _ => 0))
  }

  ghost predicate InEntryOrder(entered: seq<nat>, now: nat, members: seq<int>) {
    && (forall i :: 0 <= i < |members| ==> 0 <= members[i] < |entered| && entered[members[i]] < now)
    && forall i, j :: 0 <= i < j < |members| ==> entered[members[i]] < entered[members[j]]
  }

  ghost predicate StampsInv(c: Clocked) {
    && |c.entered| == |c.server.users|
    && forall l, r :: 0 <= l < |c.server.lobbies| && 0 <= r < |c.server.lobbies[l].rooms| ==>
         InEntryOrder(c.entered, c.now, c.server.lobbies[l].rooms[r].members)
  }

  // A member of a room before and after a step has not entered a room in between.
  lemma StayersKeepStamp(p: Patch, c: Clocked, e: Event, l: int, r: int, u: int)
    requires Inv(c.server) && Step(p, c.server, e).Done? && |c.entered| == |c.server.users|
    requires 0 <= l < |c.server.lobbies| && c.server.lobbies[l].HasRoom(r)
    requires u in c.server.lobbies[l].rooms[r].members
    ensures 0 <= u < |c.entered| && StepClocked(p, c, e).entered[u] == c.entered[u]
  {
    assert MembersAgree(c.server.users, c.server.lobbies[l], l);
    assert RoomAgrees(c.server.users, c.server.lobbies[l].rooms[r].members, l, r);
  }

  lemma LeaverKeepsOrder(entered: seq<nat>, now: nat, room: RoomState, u: int)
    requires InEntryOrder(entered, now, room.members)
    ensures InEntryOrder(entered, now, room.Leave(u).0.members)
  {
  }

  lemma RoomKeepsStamps(p: Patch, c: Clocked, e: Event, l: int, r: int)
    requires Inv(c.server) && StampsInv(c) && Step(p, c.server, e).Done?
    requires 0 <= l < |c.server.lobbies| && c.server.lobbies[l].HasRoom(r)
    requires |Step(p, c.server, e).state.lobbies| == |c.server.lobbies|
    requires Step(p, c.server, e).state.lobbies[l].HasRoom(r)
    ensures var c' := StepClocked(p, c, e); InEntryOrder(c'.entered, c'.now, c'.server.lobbies[l].rooms[r].members)
  {
    var s, c' := c.server, StepClocked(p, c, e);
    var l', r', m := StepMovesOneRoom(p, s, e);
    assert LobbyMove(s.lobbies[l], c'.server.lobbies[l], r', if l == l' then m else Stay);
    var a, b := s.lobbies[l].rooms[r], c'.server.lobbies[l].rooms[r];
    var move := if l == l' && r == r' then m else Stay;
    assert RoomMove(a, b, move);
    forall i | 0 <= i < |a.members|
      ensures 0 <= a.members[i] < |c.entered| && c'.entered[a.members[i]] == c.entered[a.members[i]]
    {
      StayersKeepStamp(p, c, e, l, r, a.members[i]);
    }
    assert InEntryOrder(c'.entered, c.now, a.members);
    match move {
      case Join(u) =>
        StepKeepsInv(p, s, e);
        JoinerIsStampedNow(p, c, e, l, r, u);
      case Part(u) => LeaverKeepsOrder(c'.entered, c.now, a, u);
      case _ =>
    }
  }

  lemma JoinerIsStampedNow(p: Patch, c: Clocked, e: Event, l: int, r: int, u: int)
    requires Inv(c.server) && Step(p, c.server, e).Done? && Inv(Step(p, c.server, e).state)
    requires |c.entered| == |c.server.users| == |Step(p, c.server, e).state.users|
    requires 0 <= l < |Step(p, c.server, e).state.lobbies| && Step(p, c.server, e).state.lobbies[l].HasRoom(r)
    requires u in Step(p, c.server, e).state.lobbies[l].rooms[r].members
    requires c.server.User(u).domain != DomainRoom
    ensures 0 <= u < |c.entered| && StepClocked(p, c, e).entered[u] == c.now
  {
    var s' := Step(p, c.server, e).state;
    assert MembersAgree(s'.users, s'.lobbies[l], l);
    assert RoomAgrees(s'.users, s'.lobbies[l].rooms[r].members, l, r);
  }

  lemma StepKeepsStamps(p: Patch, c: Clocked, e: Event)
    requires Inv(c.server) && StampsInv(c) && Step(p, c.server, e).Done?
    ensures StampsInv(StepClocked(p, c, e))
  {
    var s, c' := c.server, StepClocked(p, c, e);
    var l', r', m := StepMovesOneRoom(p, s, e);
    forall l, r | 0 <= l < |c'.server.lobbies| && 0 <= r < |c'.server.lobbies[l].rooms|
      ensures InEntryOrder(c'.entered, c'.now, c'.server.lobbies[l].rooms[r].members)
    {
      assert LobbyMove(s.lobbies[l], c'.server.lobbies[l], r', if l == l' then m else Stay);
      RoomKeepsStamps(p, c, e, l, r);
    }
  }

  lemma {:induction false} RunKeepsStamps(p: Patch, c: Clocked, es: seq<Event>)
    requires Inv(c.server) && StampsInv(c) && Run(p, c.server, es).Ran?
    ensures StampsInv(RunClocked(p, c, es)) && RunClocked(p, c, es).server == Run(p, c.server, es).state
    decreases |es|
  {
    if es != [] {
      StepKeepsStamps(p, c, es[0]);
      StepKeepsInv(p, c.server, es[0]);
      RunKeepsStamps(p, StepClocked(p, c, es[0]), es[1..]);
    }
  }

  /** At every point of every run, the master of a room is exactly its longest-present member. */
  lemma MasterIsLongestPresent(p: Patch, cfg: Config, es: seq<Event>, l: int, r: int, u: int)
    requires ValidConfig(cfg) && Run(p, Init(cfg), es).Ran?
    requires var s := Run(p, Init(cfg), es).state;
             0 <= l < |s.lobbies| && s.lobbies[l].HasRoom(r) && u in s.lobbies[l].rooms[r].members
    ensures var c := RunClocked(p, InitClocked(cfg), es);
            var room := Run(p, Init(cfg), es).state.lobbies[l].rooms[r];
            && 0 <= u < |c.entered|
            && (forall v :: v in room.members ==> 0 <= v < |c.entered|)
            && (room.IsMaster(u) <==> forall v :: v in room.members && v != u ==> c.entered[u] < c.entered[v])
  {
    var c0 := InitClocked(cfg);
    InitKeepsInv(cfg);
    forall k, q | 0 <= k < |c0.server.lobbies| && 0 <= q < |c0.server.lobbies[k].rooms|
      ensures InEntryOrder(c0.entered, c0.now, c0.server.lobbies[k].rooms[q].members)
    {
      assert c0.server.lobbies[k] == NewLobby(k, cfg);
    }
    RunKeepsStamps(p, c0, es);
    var c := RunClocked(p, c0, es);
    var room := c.server.lobbies[l].rooms[r];
    assert InEntryOrder(c.entered, c.now, room.members);
    var i :| 0 <= i < |room.members| && room.members[i] == u;
    if i > 0 {
      assert c.entered[room.members[0]] < c.entered[u];
    }
  }

  /** While a room stays occupied, mastership moves only when the master leaves, and then to the next in line. */
  lemma MasterSuccession(p: Patch, s: ServerState, e: Event, l: int, r: int)
    requires Inv(s) && Step(p, s, e).Done?
    requires 0 <= l < |s.lobbies| && s.lobbies[l].HasRoom(r)
    ensures var s' := Step(p, s, e).state;
            && 0 <= l < |s'.lobbies| && s'.lobbies[l].HasRoom(r)
            && var a, b := s.lobbies[l].rooms[r].members, s'.lobbies[l].rooms[r].members;
               a != [] && b != [] && b[0] != a[0] ==> a[0] !in b && |a| > 1 && b[0] == a[1]
  {
    var s' := Step(p, s, e).state;
    var l', r', m := StepMovesOneRoom(p, s, e);
    assert LobbyMove(s.lobbies[l], s'.lobbies[l], r', if l == l' then m else Stay);
    var a, b := s.lobbies[l].rooms[r], s'.lobbies[l].rooms[r];
    assert RoomMove(a, b, if l == l' && r == r' then m else Stay);
    assert LobbyShape(s.lobbies[l]);
    if b.members != a.members && m.Part? {
      LeaveRoomShape(a, m.user);
    }
  }
}
