/** Room.cpp: the ordered member list and the notifications. */
module RoomImpl {
  import opened Types
  import opened State
  import opened UserImpl

  // What sending a packet to these users, passing over one index, hands to the network.
  ghost function Broadcast(users: seq<User>, pass: int, packet: Packet): seq<Sent>
    reads users
  {
    if users == [] then []
    else (if users[0].index != pass then [Sent(users[0].session, packet)] else []) + Broadcast(users[1..], pass, packet)
  }

  lemma {:induction false} BroadcastExtends(users: seq<User>, i: nat, pass: int, packet: Packet)
    requires i < |users|
    ensures Broadcast(users[..i + 1], pass, packet) ==
            Broadcast(users[..i], pass, packet)
            + (if users[i].index != pass then [Sent(users[i].session, packet)] else [])
  {
    if i > 0 {
      BroadcastExtends(users[1..], i - 1, pass, packet);
      assert users[1..][..i] == users[..i + 1][1..] && users[1..][..i - 1] == users[..i][1..];
    }
  }

  lemma {:induction false} BroadcastIsSendToAll(pool: seq<User>, users: seq<User>, pass: int, packet: Packet)
    requires IsPool(pool) && forall u :: u in users ==> u in pool
    ensures Broadcast(users, pass, packet) == SendToAll(UserViews(pool), Positions(users), pass, packet)
  {
    if users != [] {
      PositionOf(pool, users[0]);
      BroadcastIsSendToAll(pool, users[1..], pass, packet);
      assert Positions(users)[1..] == Positions(users[1..]);
    }
  }

  class Room {
    const index: int
    const max: int
    const net: TcpNet
    ghost const home: int  // the lobby it belongs to
    var used: bool
    var title: string
    var users: seq<User>

    function View(): RoomState
      reads this
    {
      RoomState(index, max, used, title, Positions(users))
    }

    constructor (r: int, maxUsers: int, network: TcpNet, ghost lobby: int)
      ensures View() == RoomState(ToShort(r), maxUsers, false, "", [])
      ensures net == network && home == lobby && users == []
    {
      index, max, net, home := ToShort(r), maxUsers, network, lobby;
      used, title, users := false, "", [];
    }

    method Clear()
      modifies this
      ensures View() == old(View()).Cleared() && users == [] && !used && title == ""
    {
      used, title, users := false, "", [];
    }

    method CreateRoom(roomTitle: string) returns (code: Code)
      modifies this
      ensures (View(), code) == old(View()).Create(roomTitle) && users == old(users)
      ensures old(used) ==> code == ROOM_ENTER_CREATE_FAIL && title == old(title)
      ensures !old(used) ==> code == NONE && used && title == roomTitle
    {
      if used {
        return ROOM_ENTER_CREATE_FAIL;
      }
      used, title := true, roomTitle;
      return NONE;
    }

    method EnterUser(u: User) returns (code: Code)
      modifies this
      ensures (View(), code) == old(View()).Enter(u.index)
      ensures users == if code == NONE then old(users) + [u] else old(users)
    {
      if !used {
        return ROOM_ENTER_NOT_CREATED;
      }
      if |users| == max {
        return ROOM_ENTER_MEMBER_FULL;
      }
      users := users + [u];
      assert Positions(users) == Positions(old(users)) + [u.index];
      return NONE;
    }

    /** True exactly for the user at the head of the list, which only a non-empty room has. */
    method IsMaster(userIndex: int) returns (master: bool)
      requires users != []
      ensures master <==> View().IsMaster(userIndex)
    {
      master := users[0].index == userIndex;
    }

    method LeaveUser(userIndex: int) returns (code: Code)
      modifies this
      ensures (View(), code) == old(View()).Leave(userIndex)
      ensures forall u :: u in users ==> u in old(users)
    {
      if !used {
        return ROOM_LEAVE_NOT_CREATED;
      }
      var i := 0;
      while i < |users| && users[i].index != userIndex
        invariant 0 <= i <= |users|
        invariant userIndex !in Positions(users)[..i]
      {
        assert Positions(users)[..i + 1] == Positions(users)[..i] + [users[i].index];
        i := i + 1;
      }
      FirstIsIndexOf(Positions(users), userIndex, i);
      if i == |users| {
        return ROOM_LEAVE_NOT_MEMBER;
      }
      ghost var was := users;
      users := users[..i] + users[i + 1..];
      assert Positions(users) == Erase(Positions(was), i);
      if users == [] {
        Clear();
      }
      return NONE;
    }

    method SendToAllUser(packet: Packet, passUserIndex: int)
      modifies net
      ensures net.log == old(net.log) + Broadcast(users, passUserIndex, packet)
    {
      ghost var log, sent: seq<Sent> := net.log, [];
      var i := 0;
      while i < |users|
        invariant 0 <= i <= |users|
        invariant sent == Broadcast(users[..i], passUserIndex, packet) && net.log == log + sent
      {
        BroadcastExtends(users, i, passUserIndex, packet);
        if users[i].index != passUserIndex {
          net.SendData(users[i].session, packet);
          assert log + sent + [Sent(users[i].session, packet)] == log + (sent + [Sent(users[i].session, packet)]);
          sent := sent + [Sent(users[i].session, packet)];
        }
        i := i + 1;
      }
      assert users[..i] == users;
    }

    method NotifyEnterUserInfo(userIndex: int, id: string)
      modifies net
      ensures net.log == old(net.log) + Broadcast(users, userIndex, NewUserNtf(id))
    {
      SendToAllUser(NewUserNtf(id), userIndex);
    }

    method NotifyLeaveUserInfo(id: string)
      modifies net
      ensures net.log == old(net.log) + if used then Broadcast(users, -1, LeaveUserNtf(id)) else []
    {
      if !used {
        return;
      }
      SendToAllUser(LeaveUserNtf(id), -1);
    }

    method NotifyChat(passUserIndex: int, id: string, msg: string)
      modifies net
      ensures net.log == old(net.log) + Broadcast(users, passUserIndex, ChatNtf(id, msg))
    {
      SendToAllUser(ChatNtf(id, msg), passUserIndex);
    }
  }

  // A position before which x does not occur, and at which it does unless it is the end, is the first occurrence.
  lemma FirstIsIndexOf(s: seq<int>, x: int, i: nat)
    requires i <= |s| && x !in s[..i] && (i < |s| ==> s[i] == x)
    ensures IndexOf(s, x) == i
  {
    var k := IndexOf(s, x);
    assert forall j :: 0 <= j < i ==> s[j] == s[..i][j];
    assert forall j :: 0 <= j < k ==> s[j] == s[..k][j];
  }

  function RoomViews(rooms: seq<Room>): seq<RoomState>
    reads rooms
  {
    seq(|rooms|, r requires 0 <= r < |rooms| reads rooms => rooms[r].View())
  }
}
