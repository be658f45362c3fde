/** Room titles: a room in use has the title of the request that opened it, and no other room has one. */
module Titles {
  import opened Types
  import opened State
  import opened Handlers
  import opened Invariant
  import Rooms
  import Runs
  import Reachable

  // Room r of lobby l is in use after these events.
  ghost predicate InUse(p: Patch, cfg: Config, es: seq<Event>, l: int, r: int) {
    var run := Run(p, Init(cfg), es);
    run.Ran? && 0 <= l < |run.state.lobbies| && run.state.lobbies[l].HasRoom(r) && run.state.lobbies[l].rooms[r].used
  }

  // The request takes a room into use under this title.
  predicate Opens(e: Event, title: string) {
    e.RoomEnterReq? && e.isCreate && e.title == title
  }

  /**
   * Over one step, a room that stays in use keeps its title, a room taken into use gets the title asked for, and a
   * room that is not in use afterwards has none, if it had none before.
   */
  lemma StepKeepsTitles(p: Patch, s: ServerState, e: Event, l: int, r: int)
    requires Inv(s) && Step(p, s, e).Done? && 0 <= l < |s.lobbies| && s.lobbies[l].HasRoom(r)
    ensures var s' := Step(p, s, e).state;
            && |s'.lobbies| == |s.lobbies| && |s'.lobbies[l].rooms| == |s.lobbies[l].rooms|
            && var a, b := s.lobbies[l].rooms[r], s'.lobbies[l].rooms[r];
               && (a.used && b.used ==> b.title == a.title)
               && (!a.used && b.used ==> Opens(e, b.title))
               && (!b.used && (a.used || a.title == "") ==> b.title == "")
  {
    var s' := Step(p, s, e).state;
    var l', r', m := Rooms.StepMovesOneRoom(p, s, e);
    assert Rooms.LobbyMove(s.lobbies[l], s'.lobbies[l], r', if l == l' then m else Rooms.Stay);
    assert Rooms.RoomMove(s.lobbies[l].rooms[r], s'.lobbies[l].rooms[r], if l == l' && r == r' then m else Rooms.Stay);
    assert LobbyShape(s.lobbies[l]);
  }

  /** In every reachable state a room that is not in use has no title. */
  lemma {:induction false} UnusedMeansUntitled(p: Patch, cfg: Config, es: seq<Event>, s: ServerState, l: int, r: int)
    requires Reachable.Reached(p, cfg, es, s) && 0 <= l < |s.lobbies| && s.lobbies[l].HasRoom(r)
    ensures !s.lobbies[l].rooms[r].used ==> s.lobbies[l].rooms[r].title == ""
    decreases |es|
  {
    if es == [] {
      assert s.lobbies[l] == NewLobby(l, cfg) && s.lobbies[l].rooms[r] == NewRoom(r, cfg);
    } else {
      var before, e := Runs.RunEnds(p, Init(cfg), es);
      var s1 := Run(p, Init(cfg), before).state;
      Reachable.ReachedInv(p, cfg, before, s1);
      SameRooms(p, s1, e);
      StepKeepsTitles(p, s1, e, l, r);
      UnusedMeansUntitled(p, cfg, before, s1, l, r);
    }
  }

  lemma SameRooms(p: Patch, s: ServerState, e: Event)
    requires Inv(s) && Step(p, s, e).Done?
    ensures |Step(p, s, e).state.lobbies| == |s.lobbies|
    ensures forall l :: 0 <= l < |s.lobbies| ==> |Step(p, s, e).state.lobbies[l].rooms| == |s.lobbies[l].rooms|
  {
    var s' := Step(p, s, e).state;
    var l', r', m := Rooms.StepMovesOneRoom(p, s, e);
    forall l | 0 <= l < |s.lobbies| ensures |s'.lobbies[l].rooms| == |s.lobbies[l].rooms| {
      assert Rooms.LobbyMove(s.lobbies[l], s'.lobbies[l], r', if l == l' then m else Rooms.Stay);
    }
  }

  lemma NothingInUseAtFirst(p: Patch, cfg: Config, l: int, r: int)
    requires ValidConfig(cfg)
    ensures !InUse(p, cfg, [], l, r)
  {
    var s := Init(cfg);
    if 0 <= l < |s.lobbies| && s.lobbies[l].HasRoom(r) {
      assert s.lobbies[l] == NewLobby(l, cfg) && s.lobbies[l].rooms[r] == NewRoom(r, cfg);
    }
  }

  function TitleAfter(p: Patch, cfg: Config, es: seq<Event>, l: int, r: int): string
    requires InUse(p, cfg, es, l, r)
  {
    Run(p, Init(cfg), es).state.lobbies[l].rooms[r].title
  }

  // The last event has kept the room open, title and all, or has opened it.
  lemma LastEvent(p: Patch, cfg: Config, es: seq<Event>, l: int, r: int) returns (before: seq<Event>, e: Event)
    requires ValidConfig(cfg) && es != [] && InUse(p, cfg, es, l, r)
    ensures es == before + [e] && Run(p, Init(cfg), before).Ran?
    ensures InUse(p, cfg, before, l, r) ==> TitleAfter(p, cfg, es, l, r) == TitleAfter(p, cfg, before, l, r)
    ensures !InUse(p, cfg, before, l, r) ==> Opens(e, TitleAfter(p, cfg, es, l, r))
  {
    before, e := Runs.RunEnds(p, Init(cfg), es);
    var s := Run(p, Init(cfg), before).state;
    Reachable.ReachedInv(p, cfg, before, s);
    SameRooms(p, s, e);
    StepKeepsTitles(p, s, e, l, r);
  }

  /**
   * In every run, a room in use has the title of the request that took it into use last: it was not in use before that
   * request, and has been ever since.
   */
  lemma {:induction false} TitleIsTheOpeners(p: Patch, cfg: Config, es: seq<Event>, l: int, r: int) returns (i: nat)
    requires ValidConfig(cfg) && InUse(p, cfg, es, l, r)
    ensures i < |es| && Opens(es[i], TitleAfter(p, cfg, es, l, r))
    ensures !InUse(p, cfg, es[..i], l, r)
    ensures forall j :: i < j <= |es| ==> InUse(p, cfg, es[..j], l, r)
    decreases |es|
  {
    NothingInUseAtFirst(p, cfg, l, r);
    var before, e := LastEvent(p, cfg, es, l, r);
    assert es[..|before|] == before && es[..|es|] == es;
    if InUse(p, cfg, before, l, r) {
      i := TitleIsTheOpeners(p, cfg, before, l, r);
      forall j | i <= j <= |before| ensures es[..j] == before[..j] {
      }
    } else {
      i := |before|;
    }
  }
}
