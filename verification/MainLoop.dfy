/** The packet queue, the table of handlers and the loop that takes packets from the one to the other. */
module MainLoop {
  import opened Types
  import opened State
  import opened Handlers
  import Runs

  /**
   * A queued packet. Every handler reads the body as its own structure; the fields after `buffer`, which is where
   * the body lies, are what those structures would hold.
   */
  datatype PacketInfo = PacketInfo(session: int, id: int, buffer: int, loginId: string, lobbyId: int, isCreate: bool,
                                   roomIndex: int, title: string, msg: string, data: string)

  // What GetPacketInfo returns when the queue is empty.
  const NO_PACKET := PacketInfo(0, 0, 0, "", 0, false, 0, "", "", "")

  // The ids of the packets that have a handler, and the size of the table of handlers.
  const NTF_SYS_CONNECT_SESSION := 2
  const NTF_SYS_CLOSE_SESSION := 3
  const LOGIN_IN_REQ := 21
  const LOBBY_LIST_REQ := 26
  const LOBBY_ENTER_REQ := 31
  const LOBBY_LEAVE_REQ := 46
  const ROOM_ENTER_REQ := 61
  const ROOM_LEAVE_REQ := 66
  const ROOM_CHAT_REQ := 76
  const DEV_ECHO_REQ := 241
  const TABLE_SIZE := 256

  predicate InTable(packet: PacketInfo) {
    0 <= packet.id < TABLE_SIZE
  }

  // The handler call that the table makes of a packet.
  function Decode(packet: PacketInfo): Event {
    if packet.id == NTF_SYS_CONNECT_SESSION then Connect(packet.session)
    else if packet.id == NTF_SYS_CLOSE_SESSION then Close(packet.session)
    else if packet.id == LOGIN_IN_REQ then LoginReq(packet.session, packet.loginId, packet.buffer)
    else if packet.id == LOBBY_LIST_REQ then LobbyListReq(packet.session)
    else if packet.id == LOBBY_ENTER_REQ then LobbyEnterReq(packet.session, packet.lobbyId)
    else if packet.id == LOBBY_LEAVE_REQ then LobbyLeaveReq(packet.session)
    else if packet.id == ROOM_ENTER_REQ then RoomEnterReq(packet.session, packet.isCreate, packet.roomIndex, packet.title)
    else if packet.id == ROOM_LEAVE_REQ then RoomLeaveReq(packet.session)
    else if packet.id == ROOM_CHAT_REQ then RoomChatReq(packet.session, packet.msg)
    else if packet.id == DEV_ECHO_REQ then EchoReq(packet.session, packet.data)
    else Unregistered(packet.session)
  }

  // The packet that a client, or for a connection the network, makes of an event.
  function Encode(e: Event): PacketInfo
    requires !e.Unregistered?
  {
    var packet := NO_PACKET.(session := e.session);
    match e
    case Connect(_) => packet.(id := NTF_SYS_CONNECT_SESSION)
    case Close(_) => packet.(id := NTF_SYS_CLOSE_SESSION)
    case LoginReq(_, id, buffer) => packet.(id := LOGIN_IN_REQ, loginId := id, buffer := buffer)
    case LobbyListReq(_) => packet.(id := LOBBY_LIST_REQ)
    case LobbyEnterReq(_, lobbyId) => packet.(id := LOBBY_ENTER_REQ, lobbyId := lobbyId)
    case LobbyLeaveReq(_) => packet.(id := LOBBY_LEAVE_REQ)
    case RoomEnterReq(_, isCreate, roomIndex, title) =>
      packet.(id := ROOM_ENTER_REQ, isCreate := isCreate, roomIndex := roomIndex, title := title)
    case RoomLeaveReq(_) => packet.(id := ROOM_LEAVE_REQ)
    case RoomChatReq(_, msg) => packet.(id := ROOM_CHAT_REQ, msg := msg)
    case EchoReq(_, data) => packet.(id := DEV_ECHO_REQ, data := data)
  }

  // The id under which an event arrives, written out.
  predicate ArrivesAs(e: Event, id: int) {
    match e
    case Connect(_) => id == 2
    case Close(_) => id == 3
    case LoginReq(_, _, _) => id == 21
    case LobbyListReq(_) => id == 26
    case LobbyEnterReq(_, _) => id == 31
    case LobbyLeaveReq(_) => id == 46
    case RoomEnterReq(_, _, _, _) => id == 61
    case RoomLeaveReq(_) => id == 66
    case RoomChatReq(_, _) => id == 76
    case EchoReq(_, _) => id == 241
    case Unregistered(_) => id !in {2, 3, 21, 26, 31, 46, 61, 66, 76, 241}
  }

  /** Every request arrives as it was sent, under its own id, which is in the table. */
  lemma RequestArrives(e: Event)
    requires !e.Unregistered?
    ensures Decode(Encode(e)) == e && ArrivesAs(e, Encode(e).id) && InTable(Encode(e)) && Encode(e).id != 0
  {
  }

  // The packet without the parts of the body that a handler for its id does not read.
  function Read(packet: PacketInfo): PacketInfo {
    PacketInfo(packet.session, packet.id, if packet.id == 21 then packet.buffer else 0,
               if packet.id == 21 then packet.loginId else "", if packet.id == 31 then packet.lobbyId else 0,
               packet.id == 61 && packet.isCreate, if packet.id == 61 then packet.roomIndex else 0,
               if packet.id == 61 then packet.title else "", if packet.id == 76 then packet.msg else "",
               if packet.id == 241 then packet.data else "")
  }

  /**
   * Whatever packet arrives, the handler called is that of its id, for its session, and gets exactly what that handler
   * reads of the body; there is none exactly when the id is none of the ten. The table ends at 256.
   */
  lemma PacketIsUnderstood(packet: PacketInfo)
    ensures ArrivesAs(Decode(packet), packet.id) && Decode(packet).session == packet.session
    ensures Decode(packet).Unregistered? <==> packet.id !in {2, 3, 21, 26, 31, 46, 61, 66, 76, 241}
    ensures !Decode(packet).Unregistered? ==> Encode(Decode(packet)) == Read(packet) && InTable(packet)
    ensures InTable(packet) <==> 0 <= packet.id <= 255
  {
  }

  function DecodeAll(packets: seq<PacketInfo>): seq<Event> {
    seq(|packets|, i requires 0 <= i < |packets| => Decode(packets[i]))
  }

  /** PacketProcess::Process; an id outside the table reads outside the array. */
  function Dispatch(p: Patch, s: ServerState, packet: PacketInfo): Outcome {
    if InTable(packet) then Step(p, s, Decode(packet)) else Undefined
  }

  function GetPacketInfo(queue: seq<PacketInfo>): (PacketInfo, seq<PacketInfo>) {
    if queue == [] then (NO_PACKET, []) else (queue[0], queue[1..])
  }

  /** The inner loop: left by `break`, still going, or in undefined behaviour. The code and packets of each turn. */
  datatype Progress =
    | Exited(server: ServerState, queue: seq<PacketInfo>, codes: seq<Code>, sent: seq<seq<Sent>>)
    | Running(server: ServerState, queue: seq<PacketInfo>, codes: seq<Code>, sent: seq<seq<Sent>>)
    | Crashed

  function After(code: Code, sent: seq<Sent>, rest: Progress): Progress {
    match rest
    case Exited(s, queue, codes, sents) => Exited(s, queue, [code] + codes, [sent] + sents)
    case Running(s, queue, codes, sents) => Running(s, queue, [code] + codes, [sent] + sents)
    case Crashed => Crashed
  }

  /**
   * At most n turns of the inner loop. As written (`compares` false) the condition assigns 0 to the packet id and is
   * therefore false; repaired, it compares.
   */
  function Loop(compares: bool, p: Patch, s: ServerState, queue: seq<PacketInfo>, n: nat): Progress
    decreases n
  {
    if n == 0 then Running(s, queue, [], [])
    else
      var (taken, rest) := GetPacketInfo(queue);
      var packet := if compares then taken else taken.(id := 0);
      if compares && packet.id == 0 then Exited(s, rest, [], [])
      else
        match Dispatch(p, s, packet)
        case Undefined => Crashed
        case Done(s', code, sent) => After(code, sent, Loop(compares, p, s', rest, n - 1))
  }

  // The queue after n packets were taken, or attempted, from it.
  function Drained(queue: seq<PacketInfo>, n: nat): seq<PacketInfo> {
    if n <= |queue| then queue[n..] else []
  }

  lemma DrainOne(queue: seq<PacketInfo>, n: nat)
    requires n > 0
    ensures Drained(GetPacketInfo(queue).1, n - 1) == Drained(queue, n)
  {
  }

  // Nothing was sent in any turn.
  ghost predicate Silent(sent: seq<seq<Sent>>) {
    forall i :: 0 <= i < |sent| ==> sent[i] == []
  }

  lemma OneTurnMore(r: Progress)
    requires r.Running? && Silent(r.sent)
    ensures var after := After(NONE, [], r);
            && after.Running? && after.server == r.server && after.queue == r.queue
            && |after.sent| == |r.sent| + 1 && Silent(after.sent)
  {
  }

  // As written, a turn only drops a packet.
  lemma IdleTurn(p: Patch, s: ServerState, queue: seq<PacketInfo>, n: nat)
    requires n > 0
    ensures Loop(false, p, s, queue, n) == After(NONE, [], Loop(false, p, s, GetPacketInfo(queue).1, n - 1))
  {
    var packet := GetPacketInfo(queue).0.(id := 0);
    assert Decode(packet) == Unregistered(packet.session);
    assert Dispatch(p, s, packet) == Done(s, NONE, []);
  }

  /**
   * As written, the inner loop is never left, however many turns it takes and whatever is queued; the packets are
   * taken and dropped, nothing is answered, and the server stays as it is.
   */
  lemma {:induction false} LoopNeverEnds(p: Patch, s: ServerState, queue: seq<PacketInfo>, n: nat)
    ensures var r := Loop(false, p, s, queue, n);
            && r.Running? && r.server == s && r.queue == Drained(queue, n)
            && |r.sent| == n && Silent(r.sent)
    decreases n
  {
    if n > 0 {
      var rest := GetPacketInfo(queue).1;
      IdleTurn(p, s, queue, n);
      LoopNeverEnds(p, s, rest, n - 1);
      DrainOne(queue, n);
      OneTurnMore(Loop(false, p, s, rest, n - 1));
    }
  }

  // How many packets the repaired loop handles before it stops at one that it breaks at or cannot look up.
  function Handled(queue: seq<PacketInfo>): (k: nat)
    ensures k <= |queue|
    ensures forall i :: 0 <= i < k ==> InTable(queue[i]) && queue[i].id != 0
    ensures k < |queue| ==> !InTable(queue[k]) || queue[k].id == 0
  {
    if queue == [] || !InTable(queue[0]) || queue[0].id == 0 then 0 else 1 + Handled(queue[1..])
  }

  /** What one visit to the queue should come to: the packets up to the first break, run as events. */
  function Visit(p: Patch, s: ServerState, queue: seq<PacketInfo>): Progress {
    var k := Handled(queue);
    match Run(p, s, DecodeAll(queue[..k]))
    case Lost => Crashed
    case Ran(s', codes, sent) =>
      if k < |queue| && !InTable(queue[k]) then Crashed else Exited(s', Drained(queue, k + 1), codes, sent)
  }

  /**
   * Repaired, the inner loop is left after the first packet with id 0 or when the queue is empty, and until then it
   * is the run of the state machine over the packets, in order; it crashes only where that run does or at an id
   * outside the table.
   */
  lemma {:induction false} RepairedLoopIsARun(p: Patch, s: ServerState, queue: seq<PacketInfo>, n: nat)
    requires n > Handled(queue)
    ensures Loop(true, p, s, queue, n) == Visit(p, s, queue)
    decreases n
  {
    var k := Handled(queue);
    if k == 0 {
      assert DecodeAll(queue[..0]) == [];
    } else {
      var e := Decode(queue[0]);
      assert DecodeAll(queue[..k]) == [e] + DecodeAll(queue[1..][..k - 1]);
      Runs.RunHead(p, s, e, DecodeAll(queue[1..][..k - 1]));
      if Step(p, s, e).Done? {
        RepairedLoopIsARun(p, Step(p, s, e).state, queue[1..], n - 1);
      }
    }
  }

  // The visit has come as far as packet i, all before it being handled.
  ghost predicate SoFar(p: Patch, s0: ServerState, queue: seq<PacketInfo>, i: nat,
                        s: ServerState, codes: seq<Code>, sent: seq<seq<Sent>>) {
    i <= Handled(queue) && Run(p, s0, DecodeAll(queue[..i])) == Ran(s, codes, sent)
  }

  // What is taken from the queue when i packets are gone.
  lemma TakenNext(queue: seq<PacketInfo>, i: nat)
    requires i <= |queue|
    ensures var (packet, rest) := GetPacketInfo(queue[i..]);
            && rest == Drained(queue, i + 1)
            && (packet.id != 0 ==> i < |queue| && packet == queue[i] && rest == queue[i + 1..])
            && (packet.id == 0 ==> i == |queue| || queue[i].id == 0)
  {
  }

  lemma VisitStarts(p: Patch, s: ServerState, queue: seq<PacketInfo>)
    ensures SoFar(p, s, queue, 0, s, [], [])
  {
    assert DecodeAll(queue[..0]) == [];
  }

  lemma VisitGoesOn(p: Patch, s0: ServerState, queue: seq<PacketInfo>, i: nat,
                    s: ServerState, codes: seq<Code>, sent: seq<seq<Sent>>)
    requires SoFar(p, s0, queue, i, s, codes, sent) && i < |queue| && queue[i].id != 0
    ensures var o := Dispatch(p, s, queue[i]);
            if o.Done? then SoFar(p, s0, queue, i + 1, o.state, codes + [o.code], sent + [o.sent])
            else Visit(p, s0, queue) == Crashed
  {
    var k, e := Handled(queue), Decode(queue[i]);
    if InTable(queue[i]) {
      assert DecodeAll(queue[..i + 1]) == DecodeAll(queue[..i]) + [e];
      Runs.RunAppend(p, s0, DecodeAll(queue[..i]), e);
      if Step(p, s, e).Undefined? {
        assert DecodeAll(queue[..k]) == DecodeAll(queue[..i + 1]) + DecodeAll(queue[i + 1..k]);
        Runs.LostStaysLost(p, s0, DecodeAll(queue[..i + 1]), DecodeAll(queue[i + 1..k]));
      }
    }
  }

  lemma VisitEnds(p: Patch, s0: ServerState, queue: seq<PacketInfo>, i: nat,
                  s: ServerState, codes: seq<Code>, sent: seq<seq<Sent>>)
    requires SoFar(p, s0, queue, i, s, codes, sent) && (i == |queue| || queue[i].id == 0)
    ensures Visit(p, s0, queue) == Exited(s, Drained(queue, i + 1), codes, sent)
  {
  }

  /**
   * The outer loop, repaired: before each visit to the queue the network appends what has arrived. The codes and
   * packets of all packets handled.
   */
  datatype Service =
    | Serving(server: ServerState, queue: seq<PacketInfo>, codes: seq<Code>, sent: seq<seq<Sent>>)
    | Down

  // What was handled earlier comes first.
  function Onto(codes: seq<Code>, sent: seq<seq<Sent>>, later: Service): Service {
    match later
    case Serving(s, queue, codes', sent') => Serving(s, queue, codes + codes', sent + sent')
    case Down => Down
  }

  function Serve(p: Patch, s: ServerState, queue: seq<PacketInfo>, arrivals: seq<seq<PacketInfo>>): Service
    decreases |arrivals|
  {
    if arrivals == [] then Serving(s, queue, [], [])
    else
      match Visit(p, s, queue + arrivals[0])
      case Exited(s', queue', codes, sent) => Onto(codes, sent, Serve(p, s', queue', arrivals[1..]))
      case _ => Down
  }

  lemma OntoOnto(a: seq<Code>, x: seq<seq<Sent>>, b: seq<Code>, y: seq<seq<Sent>>, later: Service)
    ensures Onto(a, x, Onto(b, y, later)) == Onto(a + b, x + y, later)
  {
    if later.Serving? {
      Associative(a, b, later.codes);
      Associative(x, y, later.sent);
    }
  }

  lemma ServiceStarts(p: Patch, s: ServerState, queue: seq<PacketInfo>, arrivals: seq<seq<PacketInfo>>)
    ensures Serve(p, s, queue, arrivals) == Onto([], [], Serve(p, s, queue, arrivals[0..]))
  {
    assert arrivals[0..] == arrivals;
    var r := Serve(p, s, queue, arrivals);
    assert r.Serving? ==> [] + r.codes == r.codes && [] + r.sent == r.sent;
  }

  lemma ServiceEnds(p: Patch, s: ServerState, queue: seq<PacketInfo>, arrivals: seq<seq<PacketInfo>>,
                    codes: seq<Code>, sent: seq<seq<Sent>>)
    ensures Onto(codes, sent, Serve(p, s, queue, arrivals[|arrivals|..])) == Serving(s, queue, codes, sent)
  {
    assert codes + [] == codes && sent + [] == sent;
  }

  // One more visit of the service so far.
  lemma ServeOneMore(p: Patch, s0: ServerState, q0: seq<PacketInfo>, arrivals: seq<seq<PacketInfo>>, i: nat,
                     codes: seq<Code>, sent: seq<seq<Sent>>, s: ServerState, queue: seq<PacketInfo>)
    requires i < |arrivals| && Serve(p, s0, q0, arrivals) == Onto(codes, sent, Serve(p, s, queue, arrivals[i..]))
    ensures var v := Visit(p, s, queue + arrivals[i]);
            if v.Exited? then
              Serve(p, s0, q0, arrivals) ==
              Onto(codes + v.codes, sent + v.sent, Serve(p, v.server, v.queue, arrivals[i + 1..]))
            else Serve(p, s0, q0, arrivals) == Down
  {
    var v := Visit(p, s, queue + arrivals[i]);
    assert arrivals[i..][1..] == arrivals[i + 1..] && arrivals[i..][0] == arrivals[i];
    if v.Exited? {
      OntoOnto(codes, sent, v.codes, v.sent, Serve(p, v.server, v.queue, arrivals[i + 1..]));
    }
  }

  // The packets with an id, as events.
  function Requests(packets: seq<PacketInfo>): seq<Event> {
    if packets == [] then []
    else (if packets[0].id == 0 then [] else [Decode(packets[0])]) + Requests(packets[1..])
  }

  function Joined(arrivals: seq<seq<PacketInfo>>): seq<PacketInfo> {
    if arrivals == [] then [] else arrivals[0] + Joined(arrivals[1..])
  }

  lemma {:induction false} RequestsAppend(a: seq<PacketInfo>, b: seq<PacketInfo>)
    ensures Requests(a + b) == Requests(a) + Requests(b)
  {
    if a == [] {
      assert a + b == b;
    } else {
      assert (a + b)[0] == a[0] && (a + b)[1..] == a[1..] + b;
      RequestsAppend(a[1..], b);
    }
  }

  lemma {:induction false} RequestsAreDecoded(packets: seq<PacketInfo>)
    requires forall i :: 0 <= i < |packets| ==> packets[i].id != 0
    ensures Requests(packets) == DecodeAll(packets)
  {
    if packets != [] {
      RequestsAreDecoded(packets[1..]);
      assert DecodeAll(packets) == [Decode(packets[0])] + DecodeAll(packets[1..]);
    }
  }

  // A visit handles the first requests in the queue and leaves the others.
  lemma VisitTakesRequests(p: Patch, s: ServerState, queue: seq<PacketInfo>) returns (es: seq<Event>)
    requires Visit(p, s, queue).Exited?
    ensures var v := Visit(p, s, queue); Run(p, s, es) == Ran(v.server, v.codes, v.sent)
    ensures Requests(queue) == es + Requests(Visit(p, s, queue).queue)
  {
    var k := Handled(queue);
    es := DecodeAll(queue[..k]);
    RequestsAreDecoded(queue[..k]);
    assert queue == queue[..k] + queue[k..];
    RequestsAppend(queue[..k], queue[k..]);
    if k < |queue| {
      assert queue[k..][0] == queue[k] && queue[k..][1..] == queue[k + 1..];
    }
  }

  lemma Associative<T>(a: seq<T>, b: seq<T>, c: seq<T>)
    ensures a + b + c == a + (b + c)
  {
  }

  lemma PortionsJoin(queue: seq<PacketInfo>, arrivals: seq<seq<PacketInfo>>, left: seq<PacketInfo>,
                     end: seq<PacketInfo>, first: seq<Event>, later: seq<Event>)
    requires arrivals != [] && Requests(queue + arrivals[0]) == first + Requests(left)
    requires Requests(left + Joined(arrivals[1..])) == later + Requests(end)
    ensures Requests(queue + Joined(arrivals)) == first + later + Requests(end)
  {
    var rest := Joined(arrivals[1..]);
    assert queue + Joined(arrivals) == (queue + arrivals[0]) + rest;
    RequestsAppend(queue + arrivals[0], rest);
    RequestsAppend(left, rest);
    Associative(first, Requests(left), Requests(rest));
    Associative(first, later, Requests(end));
  }

  /**
   * Repaired, nothing is lost, reordered or handled twice: however the packets arrive in portions, those handled so
   * far, in order, followed by those still queued are those that arrived, packets without an id apart; and state,
   * codes and packets sent are those of the run over the requests handled.
   */
  lemma {:induction false} ServedInOrder(p: Patch, s: ServerState, queue: seq<PacketInfo>, arrivals: seq<seq<PacketInfo>>)
    returns (es: seq<Event>)
    requires Serve(p, s, queue, arrivals).Serving?
    ensures var r := Serve(p, s, queue, arrivals);
            && Run(p, s, es) == Ran(r.server, r.codes, r.sent)
            && Requests(queue + Joined(arrivals)) == es + Requests(r.queue)
    decreases |arrivals|
  {
    if arrivals == [] {
      es := [];
      assert queue + Joined(arrivals) == queue;
    } else {
      var now := queue + arrivals[0];
      var first := VisitTakesRequests(p, s, now);
      var visit := Visit(p, s, now);
      var later := ServedInOrder(p, visit.server, visit.queue, arrivals[1..]);
      Runs.RunsCompose(p, s, first, later);
      es := first + later;
      PortionsJoin(queue, arrivals, visit.queue, Serve(p, s, queue, arrivals).queue, first, later);
    }
  }

  // How many packets without an id are queued.
  function Gaps(queue: seq<PacketInfo>): nat {
    if queue == [] then 0 else (if queue[0].id == 0 then 1 else 0) + Gaps(queue[1..])
  }

  lemma {:induction false} GapsAfter(queue: seq<PacketInfo>, k: nat)
    requires k <= |queue| && forall i :: 0 <= i < k ==> queue[i].id != 0
    ensures Gaps(queue) == Gaps(queue[k..])
    decreases k
  {
    if k > 0 {
      assert queue[1..][k - 1..] == queue[k..];
      GapsAfter(queue[1..], k - 1);
    } else {
      assert queue[0..] == queue;
    }
  }

  /**
   * Nothing stays queued for ever: without new arrivals, one visit more than there are packets without an id empties
   * the queue, unless the server goes down.
   */
  lemma {:induction false} QueueIsEmptied(p: Patch, s: ServerState, queue: seq<PacketInfo>, arrivals: seq<seq<PacketInfo>>)
    requires (forall i :: 0 <= i < |arrivals| ==> arrivals[i] == []) && |arrivals| > Gaps(queue)
    requires Serve(p, s, queue, arrivals).Serving?
    ensures Serve(p, s, queue, arrivals).queue == []
    decreases |arrivals|
  {
    assert queue + arrivals[0] == queue;
    var k, v := Handled(queue), Visit(p, s, queue);
    GapsAfter(queue, k);
    if k < |queue| {
      assert queue[k..][1..] == queue[k + 1..];
      QueueIsEmptied(p, v.server, v.queue, arrivals[1..]);
    } else {
      NothingToServe(p, v.server, arrivals[1..]);
    }
  }

  lemma {:induction false} NothingToServe(p: Patch, s: ServerState, arrivals: seq<seq<PacketInfo>>)
    requires forall i :: 0 <= i < |arrivals| ==> arrivals[i] == []
    ensures Serve(p, s, [], arrivals) == Serving(s, [], [], [])
    decreases |arrivals|
  {
    if arrivals != [] {
      assert [] + arrivals[0] == [];
      assert Visit(p, s, []) == Exited(s, [], [], []) by {
        assert DecodeAll([]) == [];
      }
      NothingToServe(p, s, arrivals[1..]);
    }
  }
}
