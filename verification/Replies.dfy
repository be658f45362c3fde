/** Who is answered, and how often: every request gets one response, last, on its own session. */
module Replies {
  import opened Types
  import opened State
  import opened Handlers
  import opened Invariant
  import opened Answers
  import opened Runs
  import Closing
  import Reachable

  predicate IsNotice(packet: Packet) {
    packet.NewUserNtf? || packet.LeaveUserNtf? || packet.ChatNtf?
  }

  ghost predicate AllNotices(sent: seq<Sent>) {
    forall i :: 0 <= i < |sent| ==> IsNotice(sent[i].packet)
  }

  // Connections and packets without a handler are not answered.
  predicate IsRequest(e: Event) {
    !e.Connect? && !e.Close? && !e.Unregistered?
  }

  // Whether a packet is a response to the request that carries the code, under the id the server sends it by.
  predicate RespondsTo(e: Event, code: Code, packet: Packet) {
    match e
    case LoginReq(_, _, _) => packet == LoginRes(code)
    case LobbyListReq(_) => packet.LobbyListRes? && packet.code == code
    case LobbyEnterReq(_, _) => packet.LobbyEnterRes? && packet.code == code
    case LobbyLeaveReq(_) => packet == LobbyLeaveRes(code)
    case RoomEnterReq(_, _, _, _) => packet == RoomEnterRes(code)
    case RoomLeaveReq(_) => packet == RoomEnterRes(code)
    case RoomChatReq(_, _) => packet == if code == NONE then RoomEnterRes(NONE) else RoomChatRes(code)
    case EchoReq(_, data) => packet == EchoRes(data)
    case _ => false
  }

  // The code that goes out: the one returned, but for a LobbyEnter whose session has no confirmed user.
  function CodeSent(s: ServerState, e: Event, returned: Code): Code {
    if e.LobbyEnterReq? && s.GetUser(e.session).Missing? then s.GetUser(e.session).code else returned
  }

  // Notices, and then one response on the session of the request.
  ghost predicate AnsweredLast(e: Event, code: Code, sent: seq<Sent>) {
    && sent != []
    && sent[|sent| - 1].session == e.session && RespondsTo(e, code, sent[|sent| - 1].packet)
    && AllNotices(sent[..|sent| - 1])
  }

  lemma DeliveryIsAnswered(users: seq<UserState>, to: seq<int>, notice: Packet, e: Event, code: Code, response: Packet)
    requires IsNotice(notice) && RespondsTo(e, code, response)
    ensures AnsweredLast(e, code, Closing.Deliver(users, to, notice) + [Sent(e.session, response)])
  {
    var all := Closing.Deliver(users, to, notice) + [Sent(e.session, response)];
    assert all[..|all| - 1] == Closing.Deliver(users, to, notice);
  }

  lemma RefusalIsAnswer(p: Patch, s: ServerState, e: Event, code: Code)
    requires LooksUp(e) && code != NONE
    ensures AnsweredLast(e, code, [Sent(e.session, Refusal(e, code))])
  {
  }

  /**
   * The reply law, for every patch and every request: whenever the step is defined, exactly one of the packets sent is
   * a response, it is the last one, and it goes to the session of the request, whoever that session's user is. It is
   * the response of that request, carrying the code returned, or of a failed lookup in LobbyEnter the code looked up.
   */
  lemma EveryRequestIsAnswered(p: Patch, s: ServerState, e: Event)
    requires Inv(s) && IsRequest(e) && Step(p, s, e).Done?
    ensures AnsweredLast(e, CodeSent(s, e, Step(p, s, e).code), Step(p, s, e).sent)
  {
    if LooksUp(e) {
      LookupIsExact(s, e.session);
      if s.GetUser(e.session).Missing? {
        StrangersAreTurnedAway(p, s, e);
        RefusalIsAnswer(p, s, e, s.GetUser(e.session).code);
      } else {
        UserIsAnswered(p, s, e, s.bySession[e.session]);
      }
    }
  }

  lemma UserIsAnswered(p: Patch, s: ServerState, e: Event, u: int)
    requires Inv(s) && LooksUp(e) && s.GetUser(e.session) == Found(u) && Step(p, s, e).Done?
    ensures AnsweredLast(e, Step(p, s, e).code, Step(p, s, e).sent)
  {
    var session := e.session;
    match e {
      case LobbyListReq(_) => LobbyListAnswer(p, s, session, u);
      case LobbyEnterReq(_, l) => LobbyEnterIsAnswered(p, s, session, l, u);
      case LobbyLeaveReq(_) => LobbyLeaveAnswer(p, s, session, u);
      case RoomEnterReq(_, create, r, title) => RoomEnterIsAnswered(p, s, session, create, r, title, u);
      case RoomLeaveReq(_) => RoomLeaveIsAnswered(p, s, session, u);
      case RoomChatReq(_, msg) => RoomChatIsAnswered(p, s, session, msg, u);
    }
  }

  lemma LobbyEnterIsAnswered(p: Patch, s: ServerState, session: int, l: int, u: int)
    requires Inv(s) && s.GetUser(session) == Found(u) && LobbyEnter(p, s, session, l).Done?
    ensures var o := LobbyEnter(p, s, session, l); AnsweredLast(LobbyEnterReq(session, l), o.code, o.sent)
  {
    LobbyEnterAnswer(p, s, session, l, u);
    if 0 <= l < |s.lobbies| {
      MembersAreListed(s, l);
      var slots := s.lobbies[l].slots;
      if None in slots {
        assert FirstNull(slots, FirstFree(slots, 0));
      }
    }
  }

  lemma RoomEnterIsAnswered(p: Patch, s: ServerState, session: int, create: bool, r: int, title: string, u: int)
    requires Inv(s) && s.GetUser(session) == Found(u)
    ensures var o := Step(p, s, RoomEnterReq(session, create, r, title));
            o.Done? && AnsweredLast(RoomEnterReq(session, create, r, title), o.code, o.sent)
  {
    var e := RoomEnterReq(session, create, r, title);
    LookupIsExact(s, session);
    if s.users[u].domain != DomainLobby {
      RoomEnterElsewhere(p, s, session, create, r, title, u);
    } else if create {
      RoomCreateAnswer(p, s, session, r, title, u);
      var lobby := s.lobbies[s.users[u].lobby];
      if lobby.AllocRoom(0) < |lobby.rooms| {
        assert FirstUnused(lobby, lobby.AllocRoom(0));
      }
    } else {
      RoomJoinAnswer(p, s, session, r, title, u);
      if s.lobbies[s.users[u].lobby].HasRoom(r) {
        DeliveryIsAnswered(s.users, s.lobbies[s.users[u].lobby].rooms[r].members, NewUserNtf(s.users[u].id), e, NONE,
                           RoomEnterRes(NONE));
      }
    }
  }

  lemma RoomLeaveIsAnswered(p: Patch, s: ServerState, session: int, u: int)
    requires Inv(s) && s.GetUser(session) == Found(u)
    ensures var o := Step(p, s, RoomLeaveReq(session)); o.Done? && AnsweredLast(RoomLeaveReq(session), o.code, o.sent)
  {
    RoomLeaveAnswer(p, s, session, u);
    if s.users[u].domain == DomainRoom {
      var room := s.lobbies[s.users[u].lobby].rooms[s.users[u].room];
      DeliveryIsAnswered(s.users, Closing.Remaining(room.members, u), LeaveUserNtf(s.users[u].id), RoomLeaveReq(session),
                         NONE, RoomEnterRes(NONE));
    }
  }

  lemma RoomChatIsAnswered(p: Patch, s: ServerState, session: int, msg: string, u: int)
    requires Inv(s) && s.GetUser(session) == Found(u)
    ensures var o := Step(p, s, RoomChatReq(session, msg));
            o.Done? && AnsweredLast(RoomChatReq(session, msg), o.code, o.sent)
  {
    RoomChatAnswer(p, s, session, msg, u);
    if s.users[u].domain == DomainRoom {
      var members := s.lobbies[s.users[u].lobby].rooms[s.users[u].room].members;
      DeliveryIsAnswered(s.users, Closing.Addressed(members, if p.passByUser then u else s.users[u].session),
                         ChatNtf(s.users[u].id, msg), RoomChatReq(session, msg), NONE, RoomEnterRes(NONE));
    }
  }

  /** The echo goes back as it came, and is all that happens. */
  lemma EchoAnswer(p: Patch, s: ServerState, session: int, data: string)
    ensures Step(p, s, EchoReq(session, data)) == Done(s, NONE, [Sent(session, EchoRes(data))])
  {
  }

  /** A close is answered to nobody and tells nothing but one departure; other notifications are silent. */
  lemma NotificationsAreNotAnswered(p: Patch, s: ServerState, e: Event)
    requires Inv(s) && !IsRequest(e)
    ensures var o := Step(p, s, e);
            && o.Done? && o.code == NONE
            && (forall i :: 0 <= i < |o.sent| ==>
                 && e.Close? && s.GetUser(e.session).Found?
                 && o.sent[i].packet == LeaveUserNtf(s.User(s.bySession[e.session]).id))
            && (!e.Close? ==> o.state == s && o.sent == [])
  {
    if e.Close? && s.GetUser(e.session).Found? {
      Closing.CloseNotifies(p, s, e.session);
    }
  }

  lemma {:induction false} RunLengths(p: Patch, s: ServerState, es: seq<Event>)
    requires Run(p, s, es).Ran?
    ensures |Run(p, s, es).codes| == |Run(p, s, es).sent| == |es|
    decreases |es|
  {
    if es != [] {
      RunLengths(p, Step(p, s, es[0]).state, es[1..]);
    }
  }

  /** In every run, request after request, each is answered once and on its own session. */
  lemma {:induction false} RunAnswersAll(p: Patch, cfg: Config, es: seq<Event>, i: nat)
    requires ValidConfig(cfg) && Run(p, Init(cfg), es).Ran? && i < |es|
    ensures |Run(p, Init(cfg), es).sent| == |Run(p, Init(cfg), es).codes| == |es|
    ensures Run(p, Init(cfg), es[..i]).Ran?
    ensures var r, s := Run(p, Init(cfg), es), Run(p, Init(cfg), es[..i]).state;
            if IsRequest(es[i]) then AnsweredLast(es[i], CodeSent(s, es[i], r.codes[i]), r.sent[i])
            else AllNotices(r.sent[i])
    decreases |es|
  {
    var before, e := RunEnds(p, Init(cfg), es);
    var s := Run(p, Init(cfg), before).state;
    RunLengths(p, Init(cfg), es);
    RunLengths(p, Init(cfg), before);
    if i < |before| {
      assert es[..i] == before[..i];
      RunAnswersAll(p, cfg, before, i);
    } else {
      assert es[..i] == before;
      Reachable.ReachedInv(p, cfg, before, s);
      LastIsAnswered(p, s, e);
    }
  }

  lemma LastIsAnswered(p: Patch, s: ServerState, e: Event)
    requires Inv(s) && Step(p, s, e).Done?
    ensures var o := Step(p, s, e);
            if IsRequest(e) then AnsweredLast(e, CodeSent(s, e, o.code), o.sent) else AllNotices(o.sent)
  {
    if IsRequest(e) {
      EveryRequestIsAnswered(p, s, e);
    } else {
      NotificationsAreNotAnswered(p, s, e);
    }
  }
}
