/** Main.cpp: the loop over the packet queue, with its condition repaired, driving the live objects. */
module MainImpl {
  import opened Types
  import opened State
  import opened LobbyImpl
  import opened PacketProcessImpl
  import H = Handlers
  import L = MainLoop

  // What is sent in several steps, one after the other.
  function Flat(sent: seq<seq<Sent>>): seq<Sent> {
    if sent == [] then [] else Flat(sent[..|sent| - 1]) + sent[|sent| - 1]
  }

  lemma FlatAppend(sent: seq<seq<Sent>>, last: seq<Sent>)
    ensures Flat(sent + [last]) == Flat(sent) + last
  {
    assert (sent + [last])[..|sent|] == sent;
  }

  lemma {:induction false} FlatJoin(a: seq<seq<Sent>>, b: seq<seq<Sent>>)
    ensures Flat(a + b) == Flat(a) + Flat(b)
    decreases |b|
  {
    if b == [] {
      assert a + b == a;
    } else {
      var n := |b| - 1;
      assert b == b[..n] + [b[n]] && a + b == a + b[..n] + [b[n]];
      FlatJoin(a, b[..n]);
      FlatAppend(a + b[..n], b[n]);
      FlatAppend(b[..n], b[n]);
    }
  }

  lemma MoreSent(log0: seq<Sent>, log1: seq<Sent>, log2: seq<Sent>, a: seq<seq<Sent>>, b: seq<seq<Sent>>)
    requires log1 == log0 + Flat(a) && log2 == log1 + Flat(b)
    ensures log2 == log0 + Flat(a + b)
  {
    FlatJoin(a, b);
    assert log0 + Flat(a) + Flat(b) == log0 + (Flat(a) + Flat(b));
  }

  // One more packet: what its outcome o and the changes to state and log say of the visit.
  lemma OneMore(p: Patch, s0: ServerState, q0: seq<L.PacketInfo>, i: nat, codes: seq<Code>, sent: seq<seq<Sent>>,
                o: H.Outcome, r: Reply, s: ServerState, log0: seq<Sent>, log1: seq<Sent>, log2: seq<Sent>)
    returns (sent': seq<seq<Sent>>)
    requires log1 == log0 + Flat(sent)
    requires if o.Done? then L.SoFar(p, s0, q0, i + 1, o.state, codes + [o.code], sent + [o.sent])
             else L.Visit(p, s0, q0) == L.Crashed
    requires match o
             case Undefined => r == Crashed
             case Done(t, code, out) => r == Returned(code) && s == t && log2 == log1 + out
    ensures if r.Crashed? then L.Visit(p, s0, q0) == L.Crashed
            else L.SoFar(p, s0, q0, i + 1, s, codes + [r.code], sent') && log2 == log0 + Flat(sent')
  {
    sent' := sent;
    if o.Done? {
      sent' := sent + [o.sent];
      FlatAppend(sent, o.sent);
    }
  }

  // How the loop ended: by its break, with the code of each packet handled, or in undefined behaviour.
  datatype Exit = Left(codes: seq<Code>) | Down

  class Main {
    const proc: PacketProcess
    var queue: seq<L.PacketInfo>

    constructor (p: PacketProcess)
      ensures proc == p && queue == []
    {
      proc, queue := p, [];
    }

    method GetPacketInfo() returns (packet: L.PacketInfo)
      modifies this`queue
      ensures (packet, queue) == L.GetPacketInfo(old(queue))
    {
      if queue == [] {
        return L.NO_PACKET;
      }
      packet, queue := queue[0], queue[1..];
    }

    // PacketProcess::Process: the table is looked up at the packet's id.
    method Dispatch(packet: L.PacketInfo) returns (r: Reply)
      requires proc.Valid()
      modifies proc.Objects(), proc.net
      ensures proc.Valid()
      ensures proc.Follows(L.Dispatch(proc.patch, old(proc.View()), packet), r, old(proc.net.log))
    {
      if !L.InTable(packet) {
        return Crashed;
      }
      r := proc.Process(L.Decode(packet));
    }

    // The packets before packet i of q0 are handled, the server having started at s0 and the log at log0.
    ghost predicate Along(s0: ServerState, q0: seq<L.PacketInfo>, log0: seq<Sent>,
                          i: nat, codes: seq<Code>, sent: seq<seq<Sent>>)
      reads proc.Objects(), proc.net
    {
      && proc.Valid() && i <= |q0| && proc.net.log == log0 + Flat(sent)
      && L.SoFar(proc.patch, s0, q0, i, proc.View(), codes, sent)
    }

    method HandlePacket(packet: L.PacketInfo, codes: seq<Code>, ghost s0: ServerState, ghost q0: seq<L.PacketInfo>,
                        ghost log0: seq<Sent>, ghost i: nat, ghost sent: seq<seq<Sent>>)
      returns (r: Reply, ghost sent': seq<seq<Sent>>)
      requires Along(s0, q0, log0, i, codes, sent) && i < |q0| && q0[i] == packet && packet.id != 0
      modifies proc.Objects(), proc.net
      ensures proc.Valid()
      ensures if r.Returned? then Along(s0, q0, log0, i + 1, codes + [r.code], sent')
              else L.Visit(proc.patch, s0, q0) == L.Crashed
    {
      ghost var o, log := L.Dispatch(proc.patch, proc.View(), packet), proc.net.log;
      L.VisitGoesOn(proc.patch, s0, q0, i, proc.View(), codes, sent);
      r := Dispatch(packet);
      sent' := OneMore(proc.patch, s0, q0, i, codes, sent, o, r, proc.View(), log0, log, proc.net.log);
    }

    // State, queue, log and codes are as the visit says that the loop ends, the log having started at log0.
    ghost predicate Comes(visit: L.Progress, exit: Exit, log0: seq<Sent>)
      reads this, proc.Objects(), proc.net
    {
      match visit
      case Exited(s, rest, codes, sent) =>
        exit == Left(codes) && proc.View() == s && queue == rest && proc.net.log == log0 + Flat(sent)
      case Running(_, _, _, _) => false
      case Crashed => exit == Down
    }

    // At the break, all is as the visit says.
    lemma BreakEndsVisit(s0: ServerState, q0: seq<L.PacketInfo>, log0: seq<Sent>,
                         i: nat, codes: seq<Code>, sent: seq<seq<Sent>>)
      requires Along(s0, q0, log0, i, codes, sent) && (i == |q0| || q0[i].id == 0)
      requires queue == L.Drained(q0, i + 1)
      ensures Comes(L.Visit(proc.patch, s0, q0), Left(codes), log0)
    {
      L.VisitEnds(proc.patch, s0, q0, i, proc.View(), codes, sent);
    }

    // The queue is not part of the server's state.
    lemma QueueIsApart()
      ensures this !in proc.Objects()
    {
    }

    /** Until its break, the loop is the run of the state machine over the queued packets: codes, state and packets sent. */
    method HandleQueue() returns (exit: Exit)
      requires proc.Valid()
      modifies this, proc.Objects(), proc.net
      ensures proc.Valid()
      ensures Comes(L.Visit(proc.patch, old(proc.View()), old(queue)), exit, old(proc.net.log))
    {
      ghost var s0, q0, log0 := proc.View(), queue, proc.net.log;
      ghost var i, sent: seq<seq<Sent>> := 0, [];
      var codes := [];
      L.VisitStarts(proc.patch, s0, q0);
      QueueIsApart();
      while true
        invariant Along(s0, q0, log0, i, codes, sent) && queue == q0[i..]
        decreases |queue|
      {
        var end;
        end, codes, sent := HandleNext(codes, s0, q0, log0, i, sent);
        if end.Some? {
          return end.value;
        }
        i := i + 1;
      }
    }

    // One turn of the loop: the end of it, or one more packet handled.
    method HandleNext(codes: seq<Code>, ghost s0: ServerState, ghost q0: seq<L.PacketInfo>, ghost log0: seq<Sent>,
                      ghost i: nat, ghost sent: seq<seq<Sent>>)
      returns (end: Option<Exit>, codes': seq<Code>, ghost sent': seq<seq<Sent>>)
      requires Along(s0, q0, log0, i, codes, sent) && queue == q0[i..]
      modifies this, proc.Objects(), proc.net
      ensures proc.Valid()
      ensures if end.Some? then Comes(L.Visit(proc.patch, s0, q0), end.value, log0)
              else i < |q0| && Along(s0, q0, log0, i + 1, codes', sent') && queue == q0[i + 1..]
    {
      QueueIsApart();
      L.TakenNext(q0, i);
      codes', sent' := codes, sent;
      var packet := GetPacketInfo();
      if packet.id == 0 {
        BreakEndsVisit(s0, q0, log0, i, codes, sent);
        return Some(Left(codes)), codes, sent;
      }
      var r;
      r, sent' := HandlePacket(packet, codes, s0, q0, log0, i, sent);
      if r.Crashed? {
        return Some(Down), codes, sent';
      }
      return None, codes + [r.code], sent';
    }

    // One turn of the outer loop: the network appends what arrived, and the queue is handled.
    method Turn(arrived: seq<L.PacketInfo>) returns (exit: Exit)
      requires proc.Valid()
      modifies this, proc.Objects(), proc.net
      ensures proc.Valid()
      ensures Comes(L.Visit(proc.patch, old(proc.View()), old(queue) + arrived), exit, old(proc.net.log))
    {
      QueueIsApart();
      ghost var s := proc.View();
      queue := queue + arrived;
      assert proc.View() == s;
      exit := HandleQueue();
    }

    /**
     * The outer loop, turn by turn. While the server stays up, state, codes and everything sent are those of the run of
     * the state machine over the requests served, in order, which with those still queued are all that arrived.
     */
    method Run(arrivals: seq<seq<L.PacketInfo>>) returns (up: bool, codes: seq<Code>, ghost served: seq<Event>)
      requires proc.Valid()
      modifies this, proc.Objects(), proc.net
      ensures proc.Valid()
      ensures up <==> L.Serve(proc.patch, old(proc.View()), old(queue), arrivals).Serving?
      ensures up ==> queue == L.Serve(proc.patch, old(proc.View()), old(queue), arrivals).queue
      ensures up ==>
                var r := H.Run(proc.patch, old(proc.View()), served);
                && r.Ran? && proc.View() == r.state && codes == r.codes
                && proc.net.log == old(proc.net.log) + Flat(r.sent)
                && L.Requests(old(queue) + L.Joined(arrivals)) == served + L.Requests(queue)
    {
      ghost var s0, q0, log0 := proc.View(), queue, proc.net.log;
      ghost var sent: seq<seq<Sent>> := [];
      codes, served := [], [];
      L.ServiceStarts(proc.patch, s0, q0, arrivals);
      for i := 0 to |arrivals|
        invariant ServedSoFar(s0, q0, log0, arrivals, i, codes, sent)
      {
        var exit;
        exit, codes, sent := TurnOn(arrivals[i], s0, q0, log0, arrivals, i, codes, sent);
        if exit.Down? {
          return false, codes, [];
        }
      }
      L.ServiceEnds(proc.patch, proc.View(), queue, arrivals, codes, sent);
      served := L.ServedInOrder(proc.patch, s0, q0, arrivals);
      return true, codes, served;
    }

    // After i portions of arrivals: what was handled, followed by what is to come, is the whole service.
    ghost predicate ServedSoFar(s0: ServerState, q0: seq<L.PacketInfo>, log0: seq<Sent>,
                                arrivals: seq<seq<L.PacketInfo>>, i: nat, codes: seq<Code>, sent: seq<seq<Sent>>)
      reads this, proc.Objects(), proc.net
    {
      && proc.Valid() && i <= |arrivals| && proc.net.log == log0 + Flat(sent)
      && L.Serve(proc.patch, s0, q0, arrivals) ==
         L.Onto(codes, sent, L.Serve(proc.patch, proc.View(), queue, arrivals[i..]))
    }

    method TurnOn(arrived: seq<L.PacketInfo>, ghost s0: ServerState, ghost q0: seq<L.PacketInfo>, ghost log0: seq<Sent>,
                  ghost arrivals: seq<seq<L.PacketInfo>>, ghost i: nat, codes: seq<Code>, ghost sent: seq<seq<Sent>>)
      returns (exit: Exit, codes': seq<Code>, ghost sent': seq<seq<Sent>>)
      requires ServedSoFar(s0, q0, log0, arrivals, i, codes, sent) && i < |arrivals| && arrivals[i] == arrived
      modifies this, proc.Objects(), proc.net
      ensures proc.Valid()
      ensures exit.Left? ==> ServedSoFar(s0, q0, log0, arrivals, i + 1, codes', sent')
      ensures exit.Down? ==> L.Serve(proc.patch, s0, q0, arrivals) == L.Down
    {
      ghost var log := proc.net.log;
      ghost var visit := L.Visit(proc.patch, proc.View(), queue + arrived);
      L.ServeOneMore(proc.patch, s0, q0, arrivals, i, codes, sent, proc.View(), queue);
      exit := Turn(arrived);
      codes', sent' := codes, sent;
      if exit.Left? {
        codes' := codes + exit.codes;
        sent' := sent + visit.sent;
        MoreSent(log0, log, proc.net.log, sent, visit.sent);
      }
    }
  }
}
