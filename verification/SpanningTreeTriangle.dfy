/** A triangle of bridges that settles with no port blocked, so that floods go round it for ever. */
module SpanningTreeTriangle {
  import opened SpanningTree
  import opened SpanningTreeConvergence
  import opened SpanningTreeLoops
  import opened SpanningTreeNet

  /** Three bridges, each linked to the other two by ports 0 and 1; port 2 is for hosts. */
  function Triangle(): Topology {
    Topology(map[1 := 3, 2 := 3, 3 := 3],
             map[Port(1, 0) := Port(2, 0), Port(2, 0) := Port(1, 0),
                 Port(2, 1) := Port(3, 0), Port(3, 0) := Port(2, 1),
                 Port(3, 1) := Port(1, 1), Port(1, 1) := Port(3, 1)])
  }

  /** What is in flight towards each port. */
  datatype Flight =
    Flight(p10: seq<Bpdu>, p11: seq<Bpdu>, p20: seq<Bpdu>, p21: seq<Bpdu>, p30: seq<Bpdu>, p31: seq<Bpdu>)

  const Quiet: Flight := Flight([], [], [], [], [], [])

  /** What bridge 1 announces, and what the other two do once they follow it. */
  const FromOne: Bpdu := Bpdu(1, 0, 1)
  const FromTwo: Bpdu := Bpdu(1, LINK_COST, 2)
  const FromThree: Bpdu := Bpdu(1, LINK_COST, 3)

  /** Bridge `b`, following bridge 1 by way of a port, or only itself. */
  function Member(b: nat, port: nat, follows: bool): Bridge {
    if follows then Bridge(b, 1, LINK_COST, port, 0, [false, false, false])
    else Bridge(b, b, 0, 0, 0, [false, false, false])
  }

  /** A state of the triangle: whether bridges 2 and 3 follow bridge 1, and what is in flight. */
  function TriNet(two: bool, three: bool, f: Flight): Net {
    Net(map[1 := Member(1, 0, false), 2 := Member(2, 0, two), 3 := Member(3, 1, three)],
        map[Port(1, 0) := f.p10, Port(1, 1) := f.p11, Port(2, 0) := f.p20,
            Port(2, 1) := f.p21, Port(3, 0) := f.p30, Port(3, 1) := f.p31])
  }

  ghost predicate TriShaped(n: Net) {
    && n.bridges.Keys == {1, 2, 3}
    && n.inFlight.Keys == {Port(1, 0), Port(1, 1), Port(2, 0), Port(2, 1), Port(3, 0), Port(3, 1)}
  }

  lemma TriNetIs(n: Net, two: bool, three: bool, f: Flight)
    requires TriShaped(n)
    requires n.bridges[1] == Member(1, 0, false)
    requires n.bridges[2] == Member(2, 0, two) && n.bridges[3] == Member(3, 1, three)
    requires n.inFlight[Port(1, 0)] == f.p10 && n.inFlight[Port(1, 1)] == f.p11 && n.inFlight[Port(2, 0)] == f.p20
    requires n.inFlight[Port(2, 1)] == f.p21 && n.inFlight[Port(3, 0)] == f.p30 && n.inFlight[Port(3, 1)] == f.p31
    ensures n == TriNet(two, three, f)
  {
    var m := TriNet(two, three, f);
    assert n.bridges == m.bridges && n.inFlight == m.inFlight;
  }

  lemma TriShape(two: bool, three: bool, f: Flight)
    ensures Shape(Triangle(), TriNet(two, three, f)) && TriShaped(TriNet(two, three, f))
  {
  }

  lemma TriPeers(p: Port)
    requires p in Triangle().peer
    ensures var t := Triangle();
            p.bridge in t.ports && p.number < t.ports[p.bridge] && t.peer[p] in t.peer && t.peer[t.peer[p]] == p
  {
  }

  lemma TriSize()
    ensures |Triangle().ports| == 3
  {
    assert Triangle().ports.Keys == {1, 2, 3};
    assert |Triangle().ports| == |Triangle().ports.Keys|;
  }

  lemma TriWellFormed()
    ensures WellFormed(Triangle())
  {
    hide Triangle;
    TriSize();
    forall p | p in Triangle().peer
      ensures p.bridge in Triangle().ports && p.number < Triangle().ports[p.bridge]
      ensures Triangle().peer[p] in Triangle().peer && Triangle().peer[Triangle().peer[p]] == p
    {
      TriPeers(p);
    }
  }

  lemma TriInitial()
    ensures Initial(Triangle(), TriNet(false, false, Quiet))
  {
    TriShape(false, false, Quiet);
    var n := TriNet(false, false, Quiet);
    assert n.bridges[1] == Fresh(1, 3) && n.bridges[2] == Fresh(2, 3) && n.bridges[3] == Fresh(3, 3);
  }

  /** What a bridge floods out of all its ports but one. */
  function Flooded(f: Flight, b: nat, except: nat, m: Bpdu): Flight {
    if b == 1 then
      f.(p20 := if except != 0 then f.p20 + [m] else f.p20, p31 := if except != 1 then f.p31 + [m] else f.p31)
    else if b == 2 then
      f.(p10 := if except != 0 then f.p10 + [m] else f.p10, p30 := if except != 1 then f.p30 + [m] else f.p30)
    else
      f.(p21 := if except != 0 then f.p21 + [m] else f.p21, p11 := if except != 1 then f.p11 + [m] else f.p11)
  }

  lemma PeersOf()
    ensures var peer := Triangle().peer;
            && peer.Keys == {Port(1, 0), Port(1, 1), Port(2, 0), Port(2, 1), Port(3, 0), Port(3, 1)}
            && peer[Port(1, 0)] == Port(2, 0) && peer[Port(2, 0)] == Port(1, 0) && peer[Port(2, 1)] == Port(3, 0)
            && peer[Port(3, 0)] == Port(2, 1) && peer[Port(3, 1)] == Port(1, 1) && peer[Port(1, 1)] == Port(3, 1)
  {
  }

  /** What is in flight in a state of the triangle. */
  ghost predicate Carries(n: map<Port, seq<Bpdu>>, f: Flight) {
    && n.Keys == {Port(1, 0), Port(1, 1), Port(2, 0), Port(2, 1), Port(3, 0), Port(3, 1)}
    && n[Port(1, 0)] == f.p10 && n[Port(1, 1)] == f.p11 && n[Port(2, 0)] == f.p20
    && n[Port(2, 1)] == f.p21 && n[Port(3, 0)] == f.p30 && n[Port(3, 1)] == f.p31
  }

  lemma TriCarries(two: bool, three: bool, f: Flight)
    ensures Carries(TriNet(two, three, f).inFlight, f)
  {
  }

  lemma CarriesUnique(n: map<Port, seq<Bpdu>>, n': map<Port, seq<Bpdu>>, f: Flight)
    requires Carries(n, f) && Carries(n', f)
    ensures n == n'
  {
  }

  lemma FloodCarries(n: map<Port, seq<Bpdu>>, f: Flight, b: nat, except: nat, m: Bpdu)
    requires 1 <= b <= 3 && Carries(n, f)
    ensures Carries(Flood(Triangle(), n, b, except, m), Flooded(f, b, except, m))
  {
    PeersOf();
    hide Triangle;
    assert Flood(Triangle(), n, b, except, m).Keys == n.Keys;
  }

  lemma TriFlood(two: bool, three: bool, f: Flight, b: nat, except: nat, m: Bpdu)
    requires 1 <= b <= 3
    ensures Flood(Triangle(), TriNet(two, three, f).inFlight, b, except, m)
         == TriNet(two, three, Flooded(f, b, except, m)).inFlight
  {
    hide TriNet, Carries, Flood, Flooded, Triangle;
    TriCarries(two, three, f);
    FloodCarries(TriNet(two, three, f).inFlight, f, b, except, m);
    TriCarries(two, three, Flooded(f, b, except, m));
    CarriesUnique(Flood(Triangle(), TriNet(two, three, f).inFlight, b, except, m),
                  TriNet(two, three, Flooded(f, b, except, m)).inFlight, Flooded(f, b, except, m));
  }

  lemma TriAnnounce(two: bool, three: bool, f: Flight, b: nat)
    requires 1 <= b <= 3
    ensures var t, n, e := Triangle(), TriNet(two, three, f), Announce(b, 2, 0);
            && Shape(t, n) && Enabled(t, n, e)
            && Step(t, n, e) == TriNet(two, three, Flooded(f, b, 2, Announcement(n.bridges[b])))
  {
    hide Flood;
    TriShape(two, three, f);
    var n := TriNet(two, three, f);
    var f' := Flooded(f, b, 2, Announcement(n.bridges[b]));
    TriFlood(two, three, f, b, 2, Announcement(n.bridges[b]));
    hide Shape, Flooded;
    var n' := Step(Triangle(), n, Announce(b, 2, 0));
    assert n'.bridges == n.bridges;
  }

  /** What is in flight towards a port. */
  function Towards(f: Flight, p: Port): seq<Bpdu> {
    if p == Port(1, 0) then f.p10
    else if p == Port(1, 1) then f.p11
    else if p == Port(2, 0) then f.p20
    else if p == Port(2, 1) then f.p21
    else if p == Port(3, 0) then f.p30
    else f.p31
  }

  function Dropped(f: Flight, p: Port): Flight
    requires Towards(f, p) != []
  {
    if p == Port(1, 0) then f.(p10 := f.p10[1..])
    else if p == Port(1, 1) then f.(p11 := f.p11[1..])
    else if p == Port(2, 0) then f.(p20 := f.p20[1..])
    else if p == Port(2, 1) then f.(p21 := f.p21[1..])
    else if p == Port(3, 0) then f.(p30 := f.p30[1..])
    else f.(p31 := f.p31[1..])
  }

  predicate IsTriPort(p: Port) {
    1 <= p.bridge <= 3 && p.number <= 1
  }

  lemma TriTail(two: bool, three: bool, f: Flight, p: Port)
    requires IsTriPort(p) && Towards(f, p) != []
    ensures var n := TriNet(two, three, f);
            && p in n.inFlight && n.inFlight[p] == Towards(f, p)
            && n.inFlight[p := n.inFlight[p][1..]] == TriNet(two, three, Dropped(f, p)).inFlight
  {
  }

  lemma TriDeliverable(two: bool, three: bool, f: Flight, to: Port)
    requires IsTriPort(to) && Towards(f, to) != []
    ensures var t, n := Triangle(), TriNet(two, three, f);
            Shape(t, n) && Enabled(t, n, Deliver(to)) && to.number < |n.bridges[to.bridge].disabled|
  {
    TriShape(two, three, f);
    TriTail(two, three, f, to);
  }

  /** A message without news changes nothing. */
  lemma TriHearsNothingNew(f: Flight, to: Port)
    requires IsTriPort(to) && Towards(f, to) != []
    requires var s, m := TriNet(true, true, f).bridges[to.bridge], Towards(f, to)[0];
             m.root == s.root && CostVia(m) >= s.rootCost && (CostVia(m) == s.rootCost ==> to.number >= s.rootPort)
    ensures var t, n, e := Triangle(), TriNet(true, true, f), Deliver(to);
            Shape(t, n) && Enabled(t, n, e) && Step(t, n, e) == TriNet(true, true, Dropped(f, to))
  {
    TriDeliverable(true, true, f, to);
    TriTail(true, true, f, to);
    var t, n := Triangle(), TriNet(true, true, f);
    var s := n.bridges[to.bridge];
    assert !Updates(s, to.number, n.inFlight[to][0]) && Handle(s, to.number, n.inFlight[to][0]) == s;
    hide Shape, Flood, Dropped, Towards, Triangle;
    assert n.bridges[to.bridge := s] == n.bridges;
  }

  /** Bridge 2 hears of bridge 1. */
  lemma TwoJoins(f: Flight)
    requires f.p20 == [FromOne]
    ensures var t, n, e := Triangle(), TriNet(false, false, f), Deliver(Port(2, 0));
            && Shape(t, n) && Enabled(t, n, e)
            && Step(t, n, e) == TriNet(true, false, f.(p20 := [], p30 := f.p30 + [FromTwo]))
  {
    TriDeliverable(false, false, f, Port(2, 0));
    TriTail(false, false, f, Port(2, 0));
    var t, n := Triangle(), TriNet(false, false, f);
    var s := n.bridges[2];
    assert Updates(s, 0, FromOne) && Handle(s, 0, FromOne) == Member(2, 0, true);
    TriFlood(false, false, Dropped(f, Port(2, 0)), 2, 0, FromTwo);
    hide Shape, Flood, Triangle, Handle, Updates;
    assert n.bridges[2 := Member(2, 0, true)] == TriNet(true, false, f).bridges;
  }

  /** Bridge 3 does. */
  lemma ThreeJoins(f: Flight)
    requires f.p31 == [FromOne]
    ensures var t, n, e := Triangle(), TriNet(true, false, f), Deliver(Port(3, 1));
            && Shape(t, n) && Enabled(t, n, e)
            && Step(t, n, e) == TriNet(true, true, f.(p31 := [], p21 := f.p21 + [FromThree]))
  {
    TriDeliverable(true, false, f, Port(3, 1));
    TriTail(true, false, f, Port(3, 1));
    var t, n := Triangle(), TriNet(true, false, f);
    var s := n.bridges[3];
    assert Updates(s, 1, FromOne) && Handle(s, 1, FromOne) == Member(3, 1, true);
    TriFlood(true, false, Dropped(f, Port(3, 1)), 3, 1, FromThree);
    hide Shape, Flood, Triangle, Handle, Updates;
    assert n.bridges[3 := Member(3, 1, true)] == TriNet(true, true, f).bridges;
  }

  /** After a first announcement of bridge 1 has spread, the bridges announce in turn and hear one another out. */
  function TriEvent(k: nat): Event {
    if k < 5 then
      match k
      case 0 => Announce(1, 2, 0)
      case 1 => Deliver(Port(2, 0))
      case 2 => Deliver(Port(3, 1))
      case 3 => Deliver(Port(3, 0))
      case _ => Deliver(Port(2, 1))
    else
      match (k - 5) % 9
      case 0 => Announce(1, 2, 0)
      case 1 => Deliver(Port(2, 0))
      case 2 => Deliver(Port(3, 1))
      case 3 => Announce(2, 2, 0)
      case 4 => Deliver(Port(1, 0))
      case 5 => Deliver(Port(3, 0))
      case 6 => Announce(3, 2, 0)
      case 7 => Deliver(Port(2, 1))
      case _ => Deliver(Port(1, 1))
  }

  function TriFlight(k: nat): Flight {
    if k < 5 then
      match k
      case 0 => Quiet
      case 1 => Quiet.(p20 := [FromOne], p31 := [FromOne])
      case 2 => Quiet.(p31 := [FromOne], p30 := [FromTwo])
      case 3 => Quiet.(p30 := [FromTwo], p21 := [FromThree])
      case _ => Quiet.(p21 := [FromThree])
    else
      match (k - 5) % 9
      case 0 => Quiet
      case 1 => Quiet.(p20 := [FromOne], p31 := [FromOne])
      case 2 => Quiet.(p31 := [FromOne])
      case 3 => Quiet
      case 4 => Quiet.(p10 := [FromTwo], p30 := [FromTwo])
      case 5 => Quiet.(p30 := [FromTwo])
      case 6 => Quiet
      case 7 => Quiet.(p21 := [FromThree], p11 := [FromThree])
      case _ => Quiet.(p11 := [FromThree])
  }

  function TriState(k: nat): Net {
    TriNet(k > 1, k > 2, TriFlight(k))
  }

  lemma FirstSteps(k: nat)
    requires k < 5
    ensures StepAt(Triangle(), TriState, TriEvent, k)
  {
    hide Step, Shape, Enabled, TriNet;
    assert [FromOne][1..] == [] && [FromTwo][1..] == [] && [FromThree][1..] == [];
    match k
    case 0 =>
      TriAnnounce(false, false, Quiet, 1);
      assert TriFlight(1) == Flooded(Quiet, 1, 2, FromOne);
      AnnouncedByOne(false, false, Quiet);
    case 1 =>
      TwoJoins(TriFlight(1));
      assert TriFlight(2).p30 == [] + [FromTwo];
    case 2 =>
      ThreeJoins(TriFlight(2));
      assert TriFlight(3).p21 == [] + [FromThree];
    case 3 =>
      Followers(TriFlight(3));
      TriHearsNothingNew(TriFlight(3), Port(3, 0));
    case _ =>
      Followers(TriFlight(4));
      TriHearsNothingNew(TriFlight(4), Port(2, 1));
  }

  lemma AnnouncedByOne(two: bool, three: bool, f: Flight)
    ensures 1 in TriNet(two, three, f).bridges && Announcement(TriNet(two, three, f).bridges[1]) == FromOne
  {
  }

  /** The bridges once all follow bridge 1. */
  lemma Followers(f: Flight)
    ensures var n := TriNet(true, true, f);
            && n.bridges.Keys == {1, 2, 3}
            && n.bridges[1] == Member(1, 0, false)
            && n.bridges[2] == Member(2, 0, true) && n.bridges[3] == Member(3, 1, true)
  {
  }

  lemma QuietFlooded(m: Bpdu)
    ensures Flooded(Quiet, 1, 2, m) == Quiet.(p20 := [m], p31 := [m])
    ensures Flooded(Quiet, 2, 2, m) == Quiet.(p10 := [m], p30 := [m])
    ensures Flooded(Quiet, 3, 2, m) == Quiet.(p21 := [m], p11 := [m])
  {
    assert [] + [m] == [m];
  }

  lemma LaterSteps(k: nat)
    requires k >= 5
    ensures StepAt(Triangle(), TriState, TriEvent, k)
  {
    hide Step, Shape, Enabled, TriNet;
    Followers(TriFlight(k));
    assert (k + 1 - 5) % 9 == if (k - 5) % 9 == 8 then 0 else (k - 5) % 9 + 1;
    if TriEvent(k).Announce? {
      Followers(Quiet);
      QuietFlooded(FromOne);
      QuietFlooded(FromTwo);
      QuietFlooded(FromThree);
      TriAnnounce(true, true, Quiet, TriEvent(k).bridge);
    } else {
      assert [FromOne][1..] == [] && [FromTwo][1..] == [] && [FromThree][1..] == [];
      TriHearsNothingNew(TriFlight(k), TriEvent(k).to);
    }
  }

  /** When, after a given time, a port hears something its neighbour holds from then on. */
  function HeardAt(p: Port, since: nat): nat {
    5 + 9 * since + (if p == Port(2, 0) then 1 else if p == Port(3, 1) then 2 else if p == Port(1, 0) then 4
                     else if p == Port(3, 0) then 5 else if p == Port(2, 1) then 7 else 8)
  }

  function ToldBy(b: nat): Bpdu {
    if b == 1 then FromOne else if b == 2 then FromTwo else FromThree
  }

  lemma HeardPhase(p: Port, since: nat)
    requires p in Triangle().peer
    ensures var k := HeardAt(p, since);
            && k >= since && k > 5 && TriEvent(k) == Deliver(p) && IsTriPort(p)
            && Towards(TriFlight(k), p) == [ToldBy(Triangle().peer[p].bridge)]
  {
    PeersOf();
    var k := HeardAt(p, since);
    assert (k - 5) % 9 == k - 5 - 9 * since;
  }

  lemma TriHearsAll(p: Port, since: nat)
    requires p in Triangle().peer
    ensures HearsLater(Triangle(), TriState, TriEvent, p, since)
  {
    hide TriNet, TriEvent, TriFlight, HeardAt, Towards;
    var k := HeardAt(p, since);
    HeardPhase(p, since);
    PeersOf();
    hide Triangle;
    LaterSteps(k);
    Followers(TriFlight(k));
    TriTail(true, true, TriFlight(k), p);
    assert Told(Triangle(), TriState, p, TriState(k).inFlight[p][0], k);
    assert Hears(Triangle(), TriState, TriEvent, p, since, k);
  }

  lemma TriIsFairRun()
    ensures IsRun(Triangle(), TriState, TriEvent) && Fair(Triangle(), TriState, TriEvent)
  {
    hide StepAt, Initial, WellFormed, HearsLater, TriNet;
    TriWellFormed();
    TriInitial();
    assert TriState(0) == TriNet(false, false, Quiet);
    forall k: nat
      ensures StepAt(Triangle(), TriState, TriEvent, k)
    {
      if k < 5 {
        FirstSteps(k);
      } else {
        LaterSteps(k);
      }
    }
    forall p, since: nat | p in Triangle().peer
      ensures HearsLater(Triangle(), TriState, TriEvent, p, since)
    {
      TriHearsAll(p, since);
    }
  }

  lemma TriLinked(a: nat, b: nat)
    requires 1 <= a <= 3 && 1 <= b <= 3
    ensures IsWalkBetween(Triangle(), if a == b then [a] else [a, b], a, b)
  {
    var t := Triangle();
    if a != b {
      var p := if b == 1 then Port(1, if a == 2 then 0 else 1)
               else if b == 2 then Port(2, if a == 1 then 0 else 1)
               else Port(3, if a == 2 then 0 else 1);
      assert p in t.peer && t.peer[p].bridge == a;
      assert Adjacent(t, a, b);
    }
  }

  lemma TriConnected()
    ensures Connected(Triangle()) && IsLeast(Triangle(), 1)
  {
    hide IsWalkBetween;
    assert Triangle().ports.Keys == {1, 2, 3};
    forall a, b | a in Triangle().ports && b in Triangle().ports
      ensures exists w :: IsWalkBetween(Triangle(), w, a, b)
    {
      TriLinked(a, b);
    }
  }

  lemma TriLeastFirst()
    ensures LeastFirst(Triangle(), TriState, TriEvent, 1)
  {
    forall k: nat | TriEvent(k).Announce?
      ensures TriEvent(k).bridge in TriState(k).bridges && TriState(k).bridges[TriEvent(k).bridge].root == 1
    {
      if k >= 5 {
        Followers(TriFlight(k));
      }
    }
  }

  /** Round the triangle, one way. */
  function Round(): seq<Port> {
    [Port(1, 0), Port(2, 1), Port(3, 1)]
  }

  lemma RoundIsCycle()
    ensures IsCycle(Triangle(), Round())
  {
  }

  /**
   On a fair run of a triangle whose least bridge is the first to announce, the network settles, no port is ever
   blocked, and a frame that bridge 2 floods on from bridge 1 never dies out.
   */
  lemma SettledTriangleLoops(start: nat) returns (since: nat)
    ensures IsRun(Triangle(), TriState, TriEvent) && Fair(Triangle(), TriState, TriEvent)
    ensures IsLeast(Triangle(), 1) && IsCycle(Triangle(), Round())
    ensures forall n: nat :: n >= since ==> AllSettled(Triangle(), TriState(n), 1)
    ensures forall n: nat :: GoesRound(Triangle(), TriState(n), Round())
    ensures forall m: nat :: CopiesAfter(Triangle(), TriState, start, {Port(2, 0)}, m) != {}
  {
    hide IsRun, Fair, AllSettled, IsLeast, Connected, IsCycle, GoesRound, TriState, TriEvent, LeastFirst, CopiesAfter,
         WellFormed;
    TriIsFairRun();
    TriConnected();
    TriLeastFirst();
    RoundIsCycle();
    TriWellFormed();
    since := Converges(Triangle(), TriState, TriEvent, 1);
    forall n: nat
      ensures GoesRound(Triangle(), TriState(n), Round())
    {
      LeastFirstLoops(Triangle(), TriState, TriEvent, 1, n, Round());
    }
    forall m: nat
      ensures CopiesAfter(Triangle(), TriState, start, {Port(2, 0)}, m) != {}
    {
      var i := NeverDiesOut(Triangle(), TriState, start, Round(), m);
    }
  }
}
