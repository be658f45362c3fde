/**
 * The session dictionary over whole runs: what a missing erase comes to, what a repeated login comes to, and who hears
 * of its own close. The inputs use only sessions that the network hands out.
 */
module Sessions {
  import opened Types
  import opened State
  import opened Handlers
  import opened Invariant
  import opened Registry
  import opened Closing
  import opened Reachable
  import opened Runs
  import Slots

  // Every key of the session dictionary is a session that the network hands out.
  ghost predicate KeysInRange(n: int, s: ServerState) {
    forall session :: session in s.bySession ==> 0 <= session < n
  }

  lemma StepKeepsKeys(p: Patch, s: ServerState, e: Event)
    requires Inv(s) && Step(p, s, e).Done?
    ensures forall t :: t in Step(p, s, e).state.bySession ==> t in s.bySession || (e.LoginReq? && t == e.session)
  {
    if e.Close? {
      if s.GetUser(e.session).Found? {
        LeaveAllKeepsIdentities(p, s, s.bySession[e.session]);
      }
    } else if !e.LoginReq? {
      MovesKeepIdentities(p, s, e);
    }
  }

  // A close that erases its own entry leaves nothing under its session.
  lemma CloseTakesKey(p: Patch, s: ServerState, session: int)
    requires Inv(s) && SessionsInv(s) && ErasesOwn(p, s, Close(session))
    ensures session !in CloseSession(p, s, session).state.bySession
  {
    if session in s.bySession {
      LeaveAllChangesItsUser(p, s, session);
      assert UserInv(s.users, s.free, s.bySession[session]);
    }
  }

  /** With R1 repaired, or one client at most, sessions lead to their own users in every run. */
  lemma {:induction false} SessionsStaySound(p: Patch, cfg: Config, es: seq<Event>, s: ServerState)
    requires Reached(p, cfg, es, s) && InRange(cfg.maxUsers, es)
    requires p.eraseBySession || cfg.maxUsers <= 1
    ensures Inv(s) && SessionsInv(s) && KeysInRange(cfg.maxUsers, s) && |s.users| == cfg.maxUsers
    decreases |es|
  {
    ReachedInv(p, cfg, es, s);
    PoolIsConserved(p, cfg, es, s);
    if es == [] {
      InitKeepsRegistry(p, cfg);
    } else {
      var before, e := RunEnds(p, Init(cfg), es);
      var s1 := Run(p, Init(cfg), before).state;
      InRangeAppend(cfg.maxUsers, before, e);
      SessionsStaySound(p, cfg, before, s1);
      StepKeepsSessions(p, s1, e);
      StepKeepsKeys(p, s1, e);
    }
  }

  // A login of a session whose key is new, while an entry is free.
  lemma LoginGoes(p: Patch, s0: ServerState, es: seq<Event>, s: ServerState, session: int, id: string, buffer: int)
    returns (es': seq<Event>, s': ServerState)
    requires Takes(p, s0, es, s) && Inv(s) && s.free != []
    requires LoginKey(p, id, buffer) !in s.byId
    ensures es' == es + [LoginReq(session, id, buffer)] && Takes(p, s0, es', s') && Inv(s')
    ensures Run(p, s0, es').codes == Run(p, s0, es).codes + [NONE]
    ensures 0 <= s.free[0] < |s.users| && s'.users == s.users[s.free[0] := s.users[s.free[0]].LoggedIn(session, id)]
    ensures s'.free == s.free[1..] && s'.bySession == Insert(s.bySession, session, s.free[0])
    ensures s'.byId == s.byId[LoginKey(p, id, buffer) := s.free[0]] && s'.lobbies == s.lobbies
    ensures LoggingIn(es') == LoggingIn(es) + {session}
    ensures OneLoginEach(es') <==> OneLoginEach(es) && session !in LoggingIn(es)
  {
    es', s' := Advance(p, s0, es, s, LoginReq(session, id, buffer));
    LoggingInAppend(es, LoginReq(session, id, buffer));
    OneLoginAppend(es, LoginReq(session, id, buffer));
  }

  function LoginKey(p: Patch, id: string, buffer: int): Key {
    if p.keyByText then Text(id) else PacketBuffer(buffer)
  }

  // A close of a session that has a user.
  lemma CloseGoes(p: Patch, s0: ServerState, es: seq<Event>, s: ServerState, session: int)
    returns (es': seq<Event>, s': ServerState)
    requires Takes(p, s0, es, s) && Inv(s) && s.GetUser(session).Found?
    ensures es' == es + [Close(session)] && Takes(p, s0, es', s') && Inv(s')
    ensures Run(p, s0, es').codes == Run(p, s0, es).codes + [NONE]
    ensures var u := s.bySession[session];
            && 0 <= u < |s.users| && s'.users == s.users[u := s.users[u].Cleared()] && s'.free == s.free + [u]
            && s'.bySession == s.bySession - {if p.eraseBySession then session else u}
            && s'.byId == s.byId - {if p.keyByText then Text(s.users[u].id) else LocalCopy}
            && (!s.HasLobby(s.users[u].lobby) ==> s'.lobbies == s.lobbies)
    ensures LoggingIn(es') == LoggingIn(es) - {session} && (OneLoginEach(es') <==> OneLoginEach(es))
  {
    LoggingInAppend(es, Close(session));
    OneLoginAppend(es, Close(session));
    assert UserInv(s.users, s.free, s.bySession[session]);
    CloseOfUser(p, s, session);
    es', s' := Advance(p, s0, es, s, Close(session));
  }

  lemma Start(p: Patch, cfg: Config)
    requires ValidConfig(cfg)
    ensures Takes(p, Init(cfg), [], Init(cfg)) && Inv(Init(cfg)) && Run(p, Init(cfg), []).codes == []
    ensures LoggingIn([]) == {} && OneLoginEach([])
    ensures |Init(cfg).users| == |Init(cfg).free| == cfg.maxUsers
    ensures forall u :: 0 <= u < cfg.maxUsers ==> Init(cfg).users[u] == NewUser(u) && Init(cfg).free[u] == u
  {
    InitKeepsInv(cfg);
    NoEvents(p, Init(cfg));
  }

  // Session 1 logs in to pool entry 0 and closes: the entry is free again, and still found under session 1.
  lemma SessionOneCloses(p: Patch, cfg: Config) returns (es: seq<Event>, s: ServerState)
    requires ValidConfig(cfg) && cfg.maxUsers > 1 && !p.eraseBySession
    ensures es == [LoginReq(1, "a", 0), Close(1)] && Takes(p, Init(cfg), es, s) && Inv(s)
    ensures Run(p, Init(cfg), es).codes == [NONE, NONE] && LoggingIn(es) == {} && OneLoginEach(es)
    ensures s.users == Init(cfg).users[0 := NewUser(0).(session := 0)] && s.lobbies == Init(cfg).lobbies
    ensures s.bySession == map[1 := 0] && s.free == Init(cfg).free[1..] + [0]
    ensures s.byId == if p.keyByText then map[] else map[PacketBuffer(0) := 0]
  {
    Start(p, cfg);
    es, s := LoginGoes(p, Init(cfg), [], Init(cfg), 1, "a", 0);
    assert s.bySession == map[1 := 0] && s.users[0] == NewUser(0).LoggedIn(1, "a");
    es, s := CloseGoes(p, Init(cfg), es, s, 1);
  }

  /** R1, on one run: a second client on a session is welcomed at login and then treated as not logged in. */
  lemma RecycledSessionIsLockedOut() returns (cfg: Config, es: seq<Event>)
    ensures cfg == Config(2, 0, 0, 0, 0) && ValidConfig(cfg) && InRange(cfg.maxUsers, es)
    ensures es == [LoginReq(1, "a", 0), Close(1), LoginReq(1, "b", 1), LobbyListReq(1)]
    ensures Run(AS_WRITTEN, Init(cfg), es).Ran?
    ensures Run(AS_WRITTEN, Init(cfg), es).codes == [NONE, NONE, NONE, USER_MGR_NOT_CONFIRM_USER]
  {
    cfg := Config(2, 0, 0, 0, 0);
    var s: ServerState;
    es, s := SessionOneCloses(AS_WRITTEN, cfg);
    es, s := LoginGoes(AS_WRITTEN, Init(cfg), es, s, 1, "b", 1);
    es, s := Advance(AS_WRITTEN, Init(cfg), es, s, LobbyListReq(1));
  }

  // Session 1 has closed but still leads to entry 0, and session 0 has entry 1.
  lemma SessionZeroGetsEntryOne(p: Patch, cfg: Config) returns (es: seq<Event>, s: ServerState)
    requires ValidConfig(cfg) && cfg.maxUsers == 2 && !p.eraseBySession
    ensures es == [LoginReq(1, "a", 0), Close(1), LoginReq(0, "b", 1)]
    ensures Takes(p, Init(cfg), es, s) && Inv(s) && LoggingIn(es) == {0} && OneLoginEach(es)
    ensures s.bySession == map[1 := 0, 0 := 1] && s.free == [0] && |s.users| == 2 && s.lobbies == Init(cfg).lobbies
    ensures s.users[0] == NewUser(0).(session := 0) && s.users[1] == NewUser(1).LoggedIn(0, "b")
    ensures p.keyByText ==> s.byId == map[Text("b") := 1]
    ensures !p.keyByText ==> s.byId == map[PacketBuffer(0) := 0, PacketBuffer(1) := 1]
  {
    Start(p, cfg);
    es, s := SessionOneCloses(p, cfg);
    es, s := LoginGoes(p, Init(cfg), es, s, 0, "b", 1);
  }

  // Session 1 is left leading to entry 0 when session 0 gets first entry 1 and then, logging in again, entry 0.
  lemma SessionsAreCrossed(p: Patch, cfg: Config) returns (es: seq<Event>, s: ServerState)
    requires ValidConfig(cfg) && cfg.maxUsers == 2 && !p.eraseBySession
    ensures es == [LoginReq(1, "a", 0), Close(1), LoginReq(0, "b", 1), LoginReq(0, "c", 2)] && InRange(cfg.maxUsers, es)
    ensures Takes(p, Init(cfg), es, s) && Inv(s) && s.lobbies == Init(cfg).lobbies
    ensures s.bySession == map[1 := 0, 0 := 1] && |s.users| == 2
    ensures s.users[0] == NewUser(0).LoggedIn(0, "c") && s.users[1] == NewUser(1).LoggedIn(0, "b")
  {
    assert "b"[0] != "c"[0];
    es, s := SessionZeroGetsEntryOne(p, cfg);
    es, s := LoginGoes(p, Init(cfg), es, s, 0, "c", 2);
  }

  /**
   * R1, on one run: the closed session 1 is taken for session 0's client. It is served as that client, closing it
   * takes that client's entry away, and closing session 0 makes it unknown.
   */
  lemma ClosedSessionActsForAnother() returns (cfg: Config, es: seq<Event>, s: ServerState)
    ensures cfg == Config(2, 0, 0, 0, 0) && InRange(cfg.maxUsers, es)
    ensures es == [LoginReq(1, "a", 0), Close(1), LoginReq(0, "b", 1), LoginReq(0, "c", 2)]
    ensures Reached(AS_WRITTEN, cfg, es, s) && s.GetUser(1) == Found(0) && s.User(0).session == 0
    ensures s.GetUser(0) == Found(1) && s.User(1).session == 0
    ensures !CloseSession(AS_WRITTEN, s, 1).state.User(0).confirmed
    ensures CloseSession(AS_WRITTEN, s, 0).state.GetUser(1).Missing?
  {
    cfg := Config(2, 0, 0, 0, 0);
    es, s := SessionsAreCrossed(AS_WRITTEN, cfg);
    CloseOfUser(AS_WRITTEN, s, 1);
    CloseOfUser(AS_WRITTEN, s, 0);
  }

  /**
   * R1, on one run: although every client logs in once per connection, sessions 0 and 1 end up as one user, the
   * client of session 1, and closing either leaves the other unknown.
   */
  lemma TwoSessionsShareAUser() returns (cfg: Config, es: seq<Event>, s: ServerState)
    ensures cfg == Config(2, 0, 0, 0, 0) && InRange(cfg.maxUsers, es) && OneLoginEach(es)
    ensures es == [LoginReq(1, "a", 0), Close(1), LoginReq(0, "b", 1), Close(0), LoginReq(0, "c", 2), LoginReq(1, "d", 3)]
    ensures Reached(AS_WRITTEN, cfg, es, s) && s.User(1).session == 1
    ensures s.GetUser(0) == Found(1) && s.GetUser(1) == Found(1)
    ensures CloseSession(AS_WRITTEN, s, 0).state.GetUser(1).Missing?
    ensures CloseSession(AS_WRITTEN, s, 1).state.GetUser(0).Missing?
  {
    cfg := Config(2, 0, 0, 0, 0);
    es, s := SessionZeroIsMisled(AS_WRITTEN, cfg);
    es, s := LoginGoes(AS_WRITTEN, Init(cfg), es, s, 1, "d", 3);
    EitherCloseTakesBoth(s);
  }

  lemma EitherCloseTakesBoth(s: ServerState)
    requires Inv(s) && s.GetUser(0) == Found(1) && s.GetUser(1) == Found(1)
    ensures CloseSession(AS_WRITTEN, s, 0).state.GetUser(1).Missing?
    ensures CloseSession(AS_WRITTEN, s, 1).state.GetUser(0).Missing?
  {
    CloseOfUser(AS_WRITTEN, s, 1);
    CloseOfUser(AS_WRITTEN, s, 0);
  }

  // Session 0 closes with entry 1, which leaves session 0 leading to entry 1, and logs in again into entry 0.
  lemma SessionZeroIsMisled(p: Patch, cfg: Config) returns (es: seq<Event>, s: ServerState)
    requires p == AS_WRITTEN && ValidConfig(cfg) && cfg.maxUsers == 2
    ensures es == [LoginReq(1, "a", 0), Close(1), LoginReq(0, "b", 1), Close(0), LoginReq(0, "c", 2)]
    ensures Takes(p, Init(cfg), es, s) && Inv(s) && LoggingIn(es) == {0} && OneLoginEach(es)
    ensures s.bySession == map[0 := 1] && s.free == [1] && |s.users| == 2 && PacketBuffer(3) !in s.byId
  {
    es, s := SessionZeroGetsEntryOne(p, cfg);
    es, s := CloseGoes(p, Init(cfg), es, s, 0);
    var s1 := s;
    assert s1.free == [0, 1] && s1.bySession == map[0 := 1] && PacketBuffer(2) !in s1.byId && PacketBuffer(3) !in s1.byId;
    es, s := LoginGoes(p, Init(cfg), es, s1, 0, "c", 2);
  }

  /**
   * R1, exactly: in all runs over the sessions that the network hands out, every session leads to its own user if and
   * only if R1 is repaired or there is at most one client.
   */
  lemma SessionsLeadToTheirUsersIff(p: Patch, cfg: Config)
    requires ValidConfig(cfg)
    ensures (forall es :: InRange(cfg.maxUsers, es) && Run(p, Init(cfg), es).Ran? ==>
               SessionsInv(Run(p, Init(cfg), es).state))
            <==> p.eraseBySession || cfg.maxUsers <= 1
  {
    if p.eraseBySession || cfg.maxUsers <= 1 {
      forall es | InRange(cfg.maxUsers, es) && Run(p, Init(cfg), es).Ran?
        ensures SessionsInv(Run(p, Init(cfg), es).state)
      {
        SessionsStaySound(p, cfg, es, Run(p, Init(cfg), es).state);
      }
    } else {
      var es, s := SessionOneCloses(p, cfg);
      assert InRange(cfg.maxUsers, es) && !s.users[s.bySession[1]].confirmed;
    }
  }

  /** Non-interference over all runs: with R1 and R2 repaired, no close ever touches another client. */
  lemma NoCloseInterferes(p: Patch, cfg: Config, es: seq<Event>, s: ServerState, session: int)
    requires Reached(p, cfg, es, s) && p.eraseBySession && p.clearByUser && session in s.bySession
    ensures 0 <= s.bySession[session] < |s.users|
    ensures OnlyItsUserGone(p, s, CloseSession(p, s, session).state, session)
  {
    ReachedInv(p, cfg, es, s);
    RepairedRunsAreDefined(p, cfg, es);
    SessionsStayBijective(p, cfg, es, s);
    InitKeepsInv(cfg);
    InitKeepsRegistry(p, cfg);
    RunKeepsIds(p, Init(cfg), es);
    CloseTouchesOnlyItsUser(p, s, session);
  }

  // Repeated logins

  // With one entry at most, a confirmed user is reached by its session whatever else happens.
  lemma {:induction false} SoleUserIsLinked(p: Patch, cfg: Config, es: seq<Event>, s: ServerState)
    requires Reached(p, cfg, es, s) && cfg.maxUsers <= 1
    ensures AllLinked(s)
    decreases |es|
  {
    PoolIsConserved(p, cfg, es, s);
    if es == [] {
      InitKeepsRegistry(p, cfg);
    } else {
      var before, e := RunEnds(p, Init(cfg), es);
      var s1 := Run(p, Init(cfg), before).state;
      ReachedInv(p, cfg, before, s1);
      PoolIsConserved(p, cfg, before, s1);
      SoleUserIsLinked(p, cfg, before, s1);
      SoleUserStaysLinked(p, s1, e);
    }
  }

  lemma SoleUserStaysLinked(p: Patch, s: ServerState, e: Event)
    requires Inv(s) && |s.users| <= 1 && AllLinked(s) && Step(p, s, e).Done?
    ensures AllLinked(Step(p, s, e).state)
  {
    var s' := Step(p, s, e).state;
    match e {
      case LoginReq(session, id, buffer) =>
        if s.AddUser(p, session, id, buffer).1 == NONE {
          assert UserInv(s.users, s.free, s.free[0]) && s.free[0] == 0;
        }
      case Close(session) =>
        if s.GetUser(session).Found? {
          CloseOfUser(p, s, session);
        }
      case _ =>
        MovesKeepIdentities(p, s, e);
        forall u | 0 <= u < |s'.users| && s'.users[u].confirmed ensures Linked(s', u) {
          assert SameIdentity(s.users[u], s'.users[u]) && Linked(s, u);
        }
    }
  }

  /** A repeated login, on one run: the client is confirmed a second time, by an entry that its session never reaches. */
  lemma SecondLoginIsStray(p: Patch, cfg: Config) returns (es: seq<Event>, s: ServerState)
    requires ValidConfig(cfg) && cfg.maxUsers > 1
    ensures es == [LoginReq(0, "a", 0), LoginReq(0, "b", 1)] && InRange(cfg.maxUsers, es) && Reached(p, cfg, es, s)
    ensures Run(p, Init(cfg), es).codes == [NONE, NONE]
    ensures s.User(1).confirmed && s.User(1).session == 0 && s.GetUser(0) == Found(0) && !AllLinked(s)
  {
    Start(p, cfg);
    assert "a"[0] != "b"[0];
    es, s := LoginGoes(p, Init(cfg), [], Init(cfg), 0, "a", 0);
    es, s := LoginGoes(p, Init(cfg), es, s, 0, "b", 1);
    assert s.users[1].confirmed && !Linked(s, 1);
  }

  /**
   * Whatever is repaired, in all runs every confirmed user is reached by its session if and only if there is at most
   * one client; the sessions that the network hands out are enough to show it.
   */
  lemma UsersAreReachedIff(p: Patch, cfg: Config)
    requires ValidConfig(cfg)
    ensures (forall es :: Run(p, Init(cfg), es).Ran? ==> AllLinked(Run(p, Init(cfg), es).state)) <==> cfg.maxUsers <= 1
    ensures (forall es :: InRange(cfg.maxUsers, es) && Run(p, Init(cfg), es).Ran? ==>
               AllLinked(Run(p, Init(cfg), es).state)) <==> cfg.maxUsers <= 1
  {
    if cfg.maxUsers <= 1 {
      forall es | Run(p, Init(cfg), es).Ran? ensures AllLinked(Run(p, Init(cfg), es).state) {
        SoleUserIsLinked(p, cfg, es, Run(p, Init(cfg), es).state);
      }
    } else {
      var es, s := SecondLoginIsStray(p, cfg);
      assert !AllLinked(Run(p, Init(cfg), es).state);
    }
  }

  /** With R1 repaired, no close in any run is told to the session that closes. */
  lemma NoCloserIsTold(p: Patch, cfg: Config, es: seq<Event>, s: ServerState, session: int)
    requires Reached(p, cfg, es, s) && p.eraseBySession
    ensures CloseSession(p, s, session).Done? && !IsSentTo(CloseSession(p, s, session).sent, session)
  {
    ReachedInv(p, cfg, es, s);
    SessionsStayBijective(p, cfg, es, s);
    if session in s.bySession {
      CloserIsNotTold(p, s, session);
    }
  }
}
