/** Building runs one event at a time. */
module Runs {
  import opened Types
  import opened State
  import opened Handlers
  import Invariant

  // Event e takes the server from s to s'.
  ghost predicate Goes(p: Patch, s: ServerState, e: Event, s': ServerState) {
    Step(p, s, e).Done? && Step(p, s, e).state == s'
  }

  // The events es take the server from s to s'.
  ghost predicate Takes(p: Patch, s: ServerState, es: seq<Event>, s': ServerState) {
    Run(p, s, es).Ran? && Run(p, s, es).state == s'
  }

  lemma {:induction false} RunAppend(p: Patch, s: ServerState, es: seq<Event>, e: Event)
    requires Run(p, s, es).Ran?
    ensures var r := Run(p, s, es);
            Run(p, s, es + [e]) ==
            match Step(p, r.state, e)
            case Undefined => Lost
            case Done(s', code, sent) => Ran(s', r.codes + [code], r.sent + [sent])
    decreases |es|
  {
    if es == [] {
      assert [e][1..] == [] && es + [e] == [e];
      assert Step(p, s, e).Done? ==> Run(p, Step(p, s, e).state, []).Ran?;
    } else {
      assert (es + [e])[1..] == es[1..] + [e] && (es + [e])[0] == es[0];
      RunAppend(p, Step(p, s, es[0]).state, es[1..], e);
    }
  }

  // One more event at the end of a run from a state that satisfies the invariant.
  lemma Advance(p: Patch, s0: ServerState, es: seq<Event>, s: ServerState, e: Event)
    returns (es': seq<Event>, s': ServerState)
    requires Takes(p, s0, es, s) && Invariant.Inv(s) && Step(p, s, e).Done?
    ensures Takes(p, s0, es', s') && Goes(p, s, e, s') && Invariant.Inv(s') && es' == es + [e]
    ensures Run(p, s0, es').codes == Run(p, s0, es).codes + [Step(p, s, e).code]
  {
    es', s' := es + [e], Step(p, s, e).state;
    RunAppend(p, s0, es, e);
    Invariant.StepKeepsInv(p, s, e);
  }

  lemma NoEvents(p: Patch, s: ServerState)
    ensures Takes(p, s, [], s)
  {
  }

  lemma RunHead(p: Patch, s: ServerState, e: Event, es: seq<Event>)
    ensures var o := Step(p, s, e);
            var r := Run(p, s, [e] + es);
            if o.Undefined? || Run(p, o.state, es).Lost? then r == Lost
            else
              var later := Run(p, o.state, es);
              r == Ran(later.state, [o.code] + later.codes, [o.sent] + later.sent)
  {
    assert ([e] + es)[1..] == es;
  }

  lemma {:induction false} RunsCompose(p: Patch, s: ServerState, a: seq<Event>, b: seq<Event>)
    requires Run(p, s, a).Ran? && Run(p, Run(p, s, a).state, b).Ran?
    ensures var first := Run(p, s, a);
            var later := Run(p, first.state, b);
            Run(p, s, a + b) == Ran(later.state, first.codes + later.codes, first.sent + later.sent)
    decreases |a|
  {
    if a == [] {
      assert a + b == b;
    } else {
      assert (a + b)[0] == a[0] && (a + b)[1..] == a[1..] + b;
      RunsCompose(p, Step(p, s, a[0]).state, a[1..], b);
    }
  }

  lemma {:induction false} LostStaysLost(p: Patch, s: ServerState, a: seq<Event>, b: seq<Event>)
    requires Run(p, s, a) == Lost
    ensures Run(p, s, a + b) == Lost
    decreases |a|
  {
    assert (a + b)[0] == a[0] && (a + b)[1..] == a[1..] + b;
    if Step(p, s, a[0]).Done? {
      LostStaysLost(p, Step(p, s, a[0]).state, a[1..], b);
    }
  }

  /**
   * The sessions are ones the network hands out. It and the user pool are built for the same number of clients, so
   * they are numbered below the size of the pool.
   */
  ghost predicate InRange(n: int, es: seq<Event>) {
    forall i :: 0 <= i < |es| ==> 0 <= es[i].session < n
  }

  lemma InRangeAppend(n: int, es: seq<Event>, e: Event)
    ensures InRange(n, es + [e]) <==> InRange(n, es) && 0 <= e.session < n
  {
    if InRange(n, es + [e]) {
      assert (es + [e])[|es|] == e;
      assert forall i :: 0 <= i < |es| ==> (es + [e])[i] == es[i];
    }
  }

  function WithEvent(sessions: set<int>, e: Event): set<int> {
    if e.LoginReq? then sessions + {e.session} else if e.Close? then sessions - {e.session} else sessions
  }

  // The sessions that have asked to log in since they last closed.
  function LoggingIn(es: seq<Event>): set<int> {
    if es == [] then {} else WithEvent(LoggingIn(es[..|es| - 1]), es[|es| - 1])
  }

  /** No session asks to log in twice without closing in between. */
  ghost predicate OneLoginEach(es: seq<Event>) {
    forall i :: 0 <= i < |es| && es[i].LoginReq? ==> es[i].session !in LoggingIn(es[..i])
  }

  lemma LoggingInAppend(es: seq<Event>, e: Event)
    ensures LoggingIn(es + [e]) == WithEvent(LoggingIn(es), e)
  {
    assert (es + [e])[..|es + [e]| - 1] == es;
  }

  lemma OneLoginAppend(es: seq<Event>, e: Event)
    ensures OneLoginEach(es + [e]) <==> OneLoginEach(es) && (e.LoginReq? ==> e.session !in LoggingIn(es))
  {
    var all := es + [e];
    forall i | 0 <= i < |es| ensures all[i] == es[i] && all[..i] == es[..i] {
    }
    assert all[|es|] == e && all[..|es|] == es;
  }

  // A run ends with its last event.
  lemma RunEnds(p: Patch, s: ServerState, es: seq<Event>) returns (before: seq<Event>, e: Event)
    requires es != [] && Run(p, s, es).Ran?
    ensures es == before + [e] && Run(p, s, before).Ran?
    ensures Step(p, Run(p, s, before).state, e).Done?
    ensures Run(p, s, es).state == Step(p, Run(p, s, before).state, e).state
    ensures Run(p, s, es).codes == Run(p, s, before).codes + [Step(p, Run(p, s, before).state, e).code]
    ensures Run(p, s, es).sent == Run(p, s, before).sent + [Step(p, Run(p, s, before).state, e).sent]
  {
    before, e := es[..|es| - 1], es[|es| - 1];
    assert es == before + [e];
    if Run(p, s, before) == Lost {
      LostStaysLost(p, s, before, [e]);
    }
    RunAppend(p, s, before, e);
  }

  // The first client of a fresh server gets pool entry 0.
  lemma FirstLogin(p: Patch, cfg: Config, session: int)
    requires Invariant.ValidConfig(cfg) && cfg.maxUsers > 0
    ensures var o := Login(p, Init(cfg), session, "a", 0);
            var s := o.state;
            && o.code == NONE && s.GetUser(session) == Found(0) && s.lobbies == Init(cfg).lobbies
            && s.users == Init(cfg).users[0 := NewUser(0).LoggedIn(session, "a")]
            && s.free == Init(cfg).free[1..] && s.bySession == map[session := 0]
            && s.byId == map[if p.keyByText then Text("a") else PacketBuffer(0) := 0]
  {
    assert Init(cfg).users[0] == NewUser(0);
  }
}
