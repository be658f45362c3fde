/**
 * Whether a client that is not logged in finds a free pool entry: the pool and the sessions are as many, so it should;
 * as written, entries get lost that no session leads to any more.
 */
module PoolSpace {
  import opened Types
  import opened State
  import opened Handlers
  import opened Invariant
  import Registry
  import Reachable
  import opened Runs
  import Sessions
  import Slots

  lemma SubsetSize(a: set<int>, b: set<int>)
    requires a <= b
    ensures |a| <= |b|
  {
    assert b == a + (b - a);
  }

  /** While every confirmed user is reached by its own session, a session without an entry leaves room for one. */
  lemma RoomForOneMore(n: nat, s: ServerState, session: int)
    requires Inv(s) && Registry.AllLinked(s) && Sessions.KeysInRange(n, s) && |s.users| == n
    requires 0 <= session < n && session !in s.bySession
    ensures s.free != []
  {
    if s.free == [] {
      var sessions := seq(n, u requires 0 <= u < n => s.users[u].session);
      forall u | 0 <= u < n ensures sessions[u] in s.bySession && s.bySession[sessions[u]] == u {
        assert UserInv(s.users, s.free, u) && Registry.Linked(s, u);
      }
      Slots.DistinctFit(sessions, s.bySession.Keys);
      var all := set t | t in From(0, n);
      forall t ensures t in all <==> 0 <= t < n {
        if 0 <= t < n {
          assert From(0, n)[t] == t;
        }
      }
      Reachable.RangeSetSize(n, all);
      SubsetSize(s.bySession.Keys + {session}, all);
    }
  }

  // The keys of the session dictionary are sessions that have asked to log in since they last closed.
  ghost predicate KeysWithin(s: ServerState, sessions: set<int>) {
    forall t :: t in s.bySession ==> t in sessions
  }

  lemma KeysStayWithin(p: Patch, s: ServerState, e: Event, sessions: set<int>)
    requires Inv(s) && Registry.SessionsInv(s) && KeysWithin(s, sessions) && Registry.ErasesOwn(p, s, e) && Step(p, s, e).Done?
    ensures KeysWithin(Step(p, s, e).state, WithEvent(sessions, e))
  {
    Sessions.StepKeepsKeys(p, s, e);
    if e.Close? {
      Sessions.CloseTakesKey(p, s, e.session);
    }
  }

  // Only a login can be refused for a full pool.
  lemma OnlyLoginsAreRefused(p: Patch, s: ServerState, e: Event)
    requires Step(p, s, e).Done? && Step(p, s, e).code == USER_MGR_MAX_USER_COUNT
    ensures e.LoginReq? && s.free == []
  {
  }

  /** With R1 repaired, or one client at most, no run over one login per connection finds the pool full. */
  lemma {:induction false} LoginsFindRoom(p: Patch, cfg: Config, es: seq<Event>, s: ServerState)
    requires Reachable.Reached(p, cfg, es, s) && InRange(cfg.maxUsers, es) && OneLoginEach(es)
    requires p.eraseBySession || cfg.maxUsers <= 1
    ensures USER_MGR_MAX_USER_COUNT !in Run(p, Init(cfg), es).codes
    ensures Registry.AllLinked(s) && KeysWithin(s, LoggingIn(es))
    decreases |es|
  {
    if es == [] {
      Registry.InitKeepsRegistry(p, cfg);
    } else {
      var before, e := RunEnds(p, Init(cfg), es);
      var s1 := Run(p, Init(cfg), before).state;
      InRangeAppend(cfg.maxUsers, before, e);
      OneLoginAppend(before, e);
      LoggingInAppend(before, e);
      LoginsFindRoom(p, cfg, before, s1);
      Sessions.SessionsStaySound(p, cfg, before, s1);
      Registry.StepKeepsSessions(p, s1, e);
      KeysStayWithin(p, s1, e, LoggingIn(before));
      if Step(p, s1, e).code == USER_MGR_MAX_USER_COUNT {
        OnlyLoginsAreRefused(p, s1, e);
        RoomForOneMore(cfg.maxUsers, s1, e.session);
      }
    }
  }

  // The n-th of a sequence of IDs.
  function Name(n: nat): string {
    seq(n, _ => 'x')
  }

  // Logins by number, each under its own ID and out of its own buffer.
  function Nth(session: int, n: nat): Event {
    LoginReq(session, Name(n), n)
  }

  function NthKey(p: Patch, n: nat): Key {
    Sessions.LoginKey(p, Name(n), n)
  }

  lemma KeysDiffer(p: Patch, m: nat, n: nat)
    requires NthKey(p, m) == NthKey(p, n)
    ensures m == n
  {
    assert |Name(m)| == m && |Name(n)| == n;
  }

  // The logins from number n on have not been tried yet.
  ghost predicate Untried(p: Patch, s: ServerState, n: nat) {
    forall m: nat :: m >= n ==> NthKey(p, m) !in s.byId
  }

  lemma OneMoreTried(p: Patch, s: ServerState, s': ServerState, n: nat, u: int)
    requires Untried(p, s, n) && s'.byId == s.byId[NthKey(p, n) := u]
    ensures Untried(p, s', n + 1)
  {
    forall m: nat | m >= n + 1 ensures NthKey(p, m) !in s'.byId {
      if NthKey(p, m) == NthKey(p, n) {
        KeysDiffer(p, m, n);
      }
    }
  }

  // Pool entries from number k on.
  function From(k: nat, n: nat): seq<int>
    requires k <= n
  {
    seq(n - k, i => k + i)
  }

  /**
   * Entry 1 is lost: sessions 1 and 0 log in, to entries 0 and 1, and closing session 1 erases the entry of session 0,
   * whose own close then finds nobody.
   */
  lemma EntryOneIsLost(p: Patch, cfg: Config) returns (es: seq<Event>, s: ServerState)
    requires ValidConfig(cfg) && cfg.maxUsers > 1 && !p.eraseBySession
    ensures es == [Nth(1, 0), Nth(0, 1), Close(1), Close(0)] && LoggingIn(es) == {} && OneLoginEach(es)
    ensures Takes(p, Init(cfg), es, s) && Inv(s) && |s.users| == cfg.maxUsers
    ensures s.free == From(2, cfg.maxUsers) + [0] && Untried(p, s, 2)
    ensures s.bySession == map[1 := 0] && s.users[1].confirmed
  {
    var es1, s1 := TwoEntriesTaken(p, cfg);
    var es2, s2 := Sessions.CloseGoes(p, Init(cfg), es1, s1, 1);
    assert Untried(p, s2, 2);
    es, s := Advance(p, Init(cfg), es2, s2, Close(0));
    LoggingInAppend(es2, Close(0));
    OneLoginAppend(es2, Close(0));
  }

  lemma TwoEntriesTaken(p: Patch, cfg: Config) returns (es: seq<Event>, s: ServerState)
    requires ValidConfig(cfg) && cfg.maxUsers > 1
    ensures es == [Nth(1, 0), Nth(0, 1)] && LoggingIn(es) == {0, 1} && OneLoginEach(es)
    ensures Takes(p, Init(cfg), es, s) && Inv(s) && |s.users| == cfg.maxUsers
    ensures s.free == From(2, cfg.maxUsers) && Untried(p, s, 2)
    ensures s.bySession == map[1 := 0, 0 := 1] && s.users[0].confirmed && s.users[1].confirmed
  {
    Sessions.Start(p, cfg);
    assert Untried(p, Init(cfg), 0);
    var es1, s1 := EntryTaken(p, cfg, [], Init(cfg), 1, 0);
    assert s1.free[0] == 1;
    es, s := EntryTaken(p, cfg, es1, s1, 0, 1);
  }

  // Then sessions 2, 3, .. log in, and session 0; session 1 finds the pool full although it is idle.
  lemma {:induction false} PoolFillsUp(p: Patch, cfg: Config, es: seq<Event>, s: ServerState, k: nat)
    returns (es': seq<Event>)
    requires ValidConfig(cfg) && 2 <= k <= cfg.maxUsers
    requires Takes(p, Init(cfg), es, s) && Inv(s) && s.free == From(k, cfg.maxUsers) + [0] && Untried(p, s, k)
    requires OneLoginEach(es) && InRange(cfg.maxUsers, es) && forall t :: t in LoggingIn(es) ==> 2 <= t < k
    ensures InRange(cfg.maxUsers, es') && OneLoginEach(es') && Run(p, Init(cfg), es').Ran?
    ensures USER_MGR_MAX_USER_COUNT in Run(p, Init(cfg), es').codes
    ensures k == cfg.maxUsers ==> es' == es + [Nth(0, k)] + [Nth(1, k + 1)]
    decreases cfg.maxUsers - k
  {
    if k < cfg.maxUsers {
      var es1, s1 := EntryTaken(p, cfg, es, s, k, k);
      assert s1.free == From(k + 1, cfg.maxUsers) + [0];
      es' := PoolFillsUp(p, cfg, es1, s1, k + 1);
    } else {
      var es1, s1 := EntryTaken(p, cfg, es, s, 0, k);
      es' := PoolIsFull(p, cfg, es1, s1, k + 1);
    }
  }

  // The login with the next number takes the next entry.
  lemma EntryTaken(p: Patch, cfg: Config, es: seq<Event>, s: ServerState, session: int, k: nat)
    returns (es': seq<Event>, s': ServerState)
    requires Takes(p, Init(cfg), es, s) && Inv(s) && s.free != [] && Untried(p, s, k)
    requires InRange(cfg.maxUsers, es) && 0 <= session < cfg.maxUsers
    ensures Takes(p, Init(cfg), es', s') && Inv(s') && s'.free == s.free[1..] && Untried(p, s', k + 1)
    ensures 0 <= s.free[0] < |s.users| && s'.users == s.users[s.free[0] := s.users[s.free[0]].LoggedIn(session, Name(k))]
    ensures s'.bySession == Insert(s.bySession, session, s.free[0]) && s'.lobbies == s.lobbies
    ensures es' == es + [Nth(session, k)] && InRange(cfg.maxUsers, es')
    ensures LoggingIn(es') == LoggingIn(es) + {session}
    ensures OneLoginEach(es') <==> OneLoginEach(es) && session !in LoggingIn(es)
  {
    assert NthKey(p, k) !in s.byId;
    es', s' := Sessions.LoginGoes(p, Init(cfg), es, s, session, Name(k), k);
    OneMoreTried(p, s, s', k, s.free[0]);
    InRangeAppend(cfg.maxUsers, es, Nth(session, k));
  }

  lemma PoolIsFull(p: Patch, cfg: Config, es: seq<Event>, s: ServerState, k: nat) returns (es': seq<Event>)
    requires ValidConfig(cfg) && cfg.maxUsers > 1
    requires Takes(p, Init(cfg), es, s) && Inv(s) && s.free == [] && Untried(p, s, k)
    requires OneLoginEach(es) && InRange(cfg.maxUsers, es) && 1 !in LoggingIn(es)
    ensures es' == es + [Nth(1, k)] && InRange(cfg.maxUsers, es') && OneLoginEach(es') && Run(p, Init(cfg), es').Ran?
    ensures USER_MGR_MAX_USER_COUNT in Run(p, Init(cfg), es').codes
  {
    var s': ServerState;
    assert NthKey(p, k) !in s.byId;
    assert Step(p, s, Nth(1, k)).code == USER_MGR_MAX_USER_COUNT;
    es', s' := Advance(p, Init(cfg), es, s, Nth(1, k));
    InRangeAppend(cfg.maxUsers, es, Nth(1, k));
    OneLoginAppend(es, Nth(1, k));
  }

  /** R1, on one run: a client that is not logged in is refused for a full pool, although at most n - 1 of n are. */
  lemma IdleSessionIsTurnedAway(p: Patch, cfg: Config) returns (es: seq<Event>)
    requires ValidConfig(cfg) && cfg.maxUsers > 1 && !p.eraseBySession
    ensures InRange(cfg.maxUsers, es) && OneLoginEach(es) && Run(p, Init(cfg), es).Ran?
    ensures USER_MGR_MAX_USER_COUNT in Run(p, Init(cfg), es).codes
    ensures cfg.maxUsers == 2 ==> es == [Nth(1, 0), Nth(0, 1), Close(1), Close(0), Nth(0, 2), Nth(1, 3)]
  {
    var es0, s := EntryOneIsLost(p, cfg);
    es := PoolFillsUp(p, cfg, es0, s, 2);
  }

  /**
   * R1, exactly: over the sessions that the network hands out, each logging in once per connection, no login of any run
   * is refused for a full pool if and only if R1 is repaired or there is at most one client.
   */
  lemma LoginsFindRoomIff(p: Patch, cfg: Config)
    requires ValidConfig(cfg)
    ensures (forall es :: InRange(cfg.maxUsers, es) && OneLoginEach(es) && Run(p, Init(cfg), es).Ran? ==>
               USER_MGR_MAX_USER_COUNT !in Run(p, Init(cfg), es).codes)
            <==> p.eraseBySession || cfg.maxUsers <= 1
  {
    if p.eraseBySession || cfg.maxUsers <= 1 {
      forall es | InRange(cfg.maxUsers, es) && OneLoginEach(es) && Run(p, Init(cfg), es).Ran?
        ensures USER_MGR_MAX_USER_COUNT !in Run(p, Init(cfg), es).codes
      {
        LoginsFindRoom(p, cfg, es, Run(p, Init(cfg), es).state);
      }
    } else {
      var es := IdleSessionIsTurnedAway(p, cfg);
    }
  }
}
