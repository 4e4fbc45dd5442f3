/**
 When bridges block ports over a run of the network: a bridge blocks a port that brings it a larger root than its own,
 and opens a port again only when that brings it an update.
 */
module SpanningTreePorts {
  import opened SpanningTree
  import opened SpanningTreeConvergence
  import opened SpanningTreeNet

  /** At time `j` a message arrives at port `p`. */
  ghost predicate Arrives(run: nat -> Net, events: nat -> Event, j: nat, p: Port) {
    events(j) == Deliver(p) && p in run(j).inFlight && run(j).inFlight[p] != [] && p.bridge in run(j).bridges
  }

  /** It announces a larger root than the one the bridge holds. */
  ghost predicate Blocks(run: nat -> Net, events: nat -> Event, j: nat, p: Port) {
    Arrives(run, events, j, p) && run(j).inFlight[p][0].root > run(j).bridges[p.bridge].root
  }

  /** It updates the bridge. */
  ghost predicate Opens(run: nat -> Net, events: nat -> Event, j: nat, p: Port) {
    Arrives(run, events, j, p) && Updates(run(j).bridges[p.bridge], p.number, run(j).inFlight[p][0])
  }

  /** What was blocked through a port at time `j` has not been opened before time `k`. */
  ghost predicate BlockedSince(run: nat -> Net, events: nat -> Event, j: nat, k: nat, p: Port) {
    j < k && Blocks(run, events, j, p) && forall i: nat :: j < i < k ==> !Opens(run, events, i, p)
  }

  ghost predicate IsBlocked(n: Net, p: Port) {
    p.bridge in n.bridges && p.number < |n.bridges[p.bridge].disabled| && n.bridges[p.bridge].disabled[p.number]
  }

  lemma StepBlocked(t: Topology, run: nat -> Net, events: nat -> Event, k: nat, p: Port)
    requires IsRun(t, run, events) && p.bridge in t.ports && p.number < t.ports[p.bridge]
    ensures IsBlocked(run(k + 1), p) <==>
              Blocks(run, events, k, p) || (IsBlocked(run(k), p) && !Opens(run, events, k, p))
  {
    hide Flood, Initial, IsRun;
    StepsOf(t, run, events, k);
    var n, e := run(k), events(k);
    if e.Deliver? && e.to == p {
      DeliverBlocked(n.bridges[p.bridge], p.number, n.inFlight[p][0]);
    }
  }

  lemma StepsOf(t: Topology, run: nat -> Net, events: nat -> Event, k: nat)
    requires IsRun(t, run, events)
    ensures Shape(t, run(k)) && Enabled(t, run(k), events(k)) && run(k + 1) == Step(t, run(k), events(k))
    ensures Shape(t, run(k + 1))
  {
    hide Initial, Step;
    assert StepAt(t, run, events, k) && StepAt(t, run, events, k + 1);
  }

  lemma DeliverBlocked(s: Bridge, port: nat, m: Bpdu)
    requires port < |s.disabled|
    ensures Handle(s, port, m).disabled[port] <==> m.root > s.root || (s.disabled[port] && !Updates(s, port, m))
  {
  }

  /**
   On any run a port is blocked if and only if a larger root than the bridge then held came in on it, and no update
   came in on it since.
   */
  lemma {:induction false} BlockedIff(t: Topology, run: nat -> Net, events: nat -> Event, k: nat, p: Port)
    requires IsRun(t, run, events) && p.bridge in t.ports && p.number < t.ports[p.bridge]
    ensures IsBlocked(run(k), p) <==> exists j: nat :: BlockedSince(run, events, j, k, p)
  {
    hide IsBlocked, Blocks, Opens;
    if k == 0 {
      NoneBlockedAtFirst(t, run, events, p);
    } else {
      BlockedIff(t, run, events, k - 1, p);
      StepBlocked(t, run, events, k - 1, p);
      if IsBlocked(run(k), p) {
        if Blocks(run, events, k - 1, p) {
          assert BlockedSince(run, events, k - 1, k, p);
        } else {
          var j: nat :| BlockedSince(run, events, j, k - 1, p);
          assert BlockedSince(run, events, j, k, p);
        }
      } else {
        forall j: nat | BlockedSince(run, events, j, k, p)
          ensures BlockedSince(run, events, j, k - 1, p) && !Opens(run, events, k - 1, p)
        {
        }
      }
    }
  }

  lemma NoneBlockedAtFirst(t: Topology, run: nat -> Net, events: nat -> Event, p: Port)
    requires IsRun(t, run, events) && p.bridge in t.ports && p.number < t.ports[p.bridge]
    ensures !IsBlocked(run(0), p)
  {
  }

  /** The bridge with the least id blocks a port for good as soon as any larger root comes in on it, and only then. */
  lemma LeastBlockedIff(t: Topology, run: nat -> Net, events: nat -> Event, k: nat, p: Port)
    requires IsRun(t, run, events) && IsLeast(t, p.bridge) && p.number < t.ports[p.bridge]
    ensures IsBlocked(run(k), p) <==>
              exists j: nat :: j < k && Arrives(run, events, j, p) && run(j).inFlight[p][0].root > p.bridge
  {
    hide IsRun;
    BlockedIff(t, run, events, k, p);
    forall j: nat | Arrives(run, events, j, p)
      ensures run(j).bridges[p.bridge].root == p.bridge && !Opens(run, events, j, p)
    {
      LeastKeepsItself(t, run, events, j, p);
    }
    forall j: nat | j < k && Arrives(run, events, j, p) && run(j).inFlight[p][0].root > p.bridge
      ensures BlockedSince(run, events, j, k, p)
    {
    }
  }

  lemma LeastKeepsItself(t: Topology, run: nat -> Net, events: nat -> Event, j: nat, p: Port)
    requires IsRun(t, run, events) && IsLeast(t, p.bridge) && Arrives(run, events, j, p)
    ensures run(j).bridges[p.bridge].root == p.bridge && !Opens(run, events, j, p)
  {
    hide Initial;
    RunInv(t, run, events, j);
    assert StepAt(t, run, events, j);
    LeastIsItsOwnRoot(t, run(j), p.bridge);
    SenderKnowsNoBetter(t, run(j), p.bridge, p);
  }

  /** Every message in flight names the bridge at the other end of its link as its sender. */
  ghost predicate SendersNamed(t: Topology, n: Net) {
    forall p, i: nat :: p in t.peer && p in n.inFlight && i < |n.inFlight[p]| ==>
      n.inFlight[p][i].sender == t.peer[p].bridge
  }

  lemma FloodNamesSender(t: Topology, n: Net, inFlight: map<Port, seq<Bpdu>>, b: nat, except: nat, m: Bpdu)
    requires SendersNamed(t, Net(n.bridges, inFlight)) && m.sender == b
    ensures SendersNamed(t, Net(n.bridges, Flood(t, inFlight, b, except, m)))
  {
  }

  lemma StepNamesSenders(t: Topology, n: Net, e: Event)
    requires Shape(t, n) && Enabled(t, n, e) && SendersNamed(t, n)
    ensures SendersNamed(t, Step(t, n, e))
  {
    hide Flood;
    match e
    case Announce(b, device, _) => FloodNamesSender(t, n, n.inFlight, b, device, Announcement(n.bridges[b]));
    case Deliver(to) =>
      var rest := n.inFlight[to := n.inFlight[to][1..]];
      var s' := Handle(n.bridges[to.bridge], to.number, n.inFlight[to][0]);
      FloodNamesSender(t, n, rest, to.bridge, to.number, Announcement(s'));
    case Lose(_, _) =>
  }

  lemma StartNamesSenders(t: Topology, run: nat -> Net, events: nat -> Event)
    requires IsRun(t, run, events)
    ensures SendersNamed(t, run(0))
  {
    hide Step, StepAt;
  }

  lemma {:induction false} RunNamesSenders(t: Topology, run: nat -> Net, events: nat -> Event, k: nat)
    requires IsRun(t, run, events)
    ensures SendersNamed(t, run(k))
  {
    hide *;
    if k == 0 {
      StartNamesSenders(t, run, events);
    } else {
      RunNamesSenders(t, run, events, k - 1);
      StepsOf(t, run, events, k - 1);
      StepNamesSenders(t, run(k - 1), events(k - 1));
    }
  }

  /** Two bridges of two ports each, joined by one link. */
  function TwoBridges(): Topology {
    Topology(map[1 := 2, 2 := 2], map[Port(1, 0) := Port(2, 0), Port(2, 0) := Port(1, 0)])
  }

  /**
   A state of that network: whether bridge 1 has blocked the link and bridge 2 follows bridge 1, and what is in
   flight.
   */
  function TwoNet(blocked: bool, joined: bool, toOne: seq<Bpdu>, toTwo: seq<Bpdu>): Net {
    Net(map[1 := Bridge(1, 1, 0, 0, 0, [blocked, false]),
            2 := if joined then Bridge(2, 1, LINK_COST, 0, 0, [false, false])
                 else Bridge(2, 2, 0, 0, 0, [false, false])],
        map[Port(1, 0) := toOne, Port(2, 0) := toTwo])
  }

  /** Bridge 2 announces and bridge 1 hears it, then bridge 1 announces and bridge 2 hears it, and so on. */
  function TwoEvent(k: nat): Event {
    match k % 4
    case 0 => Announce(2, 1, 0)
    case 1 => Deliver(Port(1, 0))
    case 2 => Announce(1, 1, 0)
    case _ => Deliver(Port(2, 0))
  }

  function TwoState(k: nat): Net {
    match k % 4
    case 0 => TwoNet(k > 0, k > 0, [], [])
    case 1 => TwoNet(k > 4, k > 4, [if k > 4 then Bpdu(1, LINK_COST, 2) else Bpdu(2, 0, 2)], [])
    case 2 => TwoNet(true, k > 4, [], [])
    case _ => TwoNet(true, k > 4, [], [Bpdu(1, 0, 1)])
  }

  lemma TwoWellFormed()
    ensures WellFormed(TwoBridges())
  {
    assert TwoBridges().ports.Keys == {1, 2};
  }

  lemma TwoInitial()
    ensures Initial(TwoBridges(), TwoNet(false, false, [], []))
  {
    var n := TwoNet(false, false, [], []);
    assert n.bridges[1] == Fresh(1, 2) && n.bridges[2] == Fresh(2, 2);
  }

  lemma SameNet(n: Net, n': Net)
    requires n.bridges.Keys == n'.bridges.Keys == {1, 2}
    requires n.inFlight.Keys == n'.inFlight.Keys == {Port(1, 0), Port(2, 0)}
    requires n.bridges[1] == n'.bridges[1] && n.bridges[2] == n'.bridges[2]
    requires n.inFlight[Port(1, 0)] == n'.inFlight[Port(1, 0)] && n.inFlight[Port(2, 0)] == n'.inFlight[Port(2, 0)]
    ensures n == n'
  {
    assert n.bridges == n'.bridges && n.inFlight == n'.inFlight;
  }

  function FromTwo(joined: bool): Bpdu {
    Bpdu(if joined then 1 else 2, if joined then LINK_COST else 0, 2)
  }

  lemma TwoAnnounces(blocked: bool, joined: bool)
    ensures var t, n, e := TwoBridges(), TwoNet(blocked, joined, [], []), Announce(2, 1, 0);
            Shape(t, n) && Enabled(t, n, e) && Step(t, n, e) == TwoNet(blocked, joined, [FromTwo(joined)], [])
  {
    var t, n := TwoBridges(), TwoNet(blocked, joined, [], []);
    SameNet(Step(t, n, Announce(2, 1, 0)), TwoNet(blocked, joined, [FromTwo(joined)], []));
  }

  lemma OneAnnounces(blocked: bool, joined: bool)
    ensures var t, n, e := TwoBridges(), TwoNet(blocked, joined, [], []), Announce(1, 1, 0);
            Shape(t, n) && Enabled(t, n, e) && Step(t, n, e) == TwoNet(blocked, joined, [], [Bpdu(1, 0, 1)])
  {
    var t, n := TwoBridges(), TwoNet(blocked, joined, [], []);
    SameNet(Step(t, n, Announce(1, 1, 0)), TwoNet(blocked, joined, [], [Bpdu(1, 0, 1)]));
  }

  lemma OneHears(blocked: bool, joined: bool)
    ensures var t, n, e := TwoBridges(), TwoNet(blocked, joined, [FromTwo(joined)], []), Deliver(Port(1, 0));
            Shape(t, n) && Enabled(t, n, e) && Step(t, n, e) == TwoNet(blocked || !joined, joined, [], [])
  {
    var t, n := TwoBridges(), TwoNet(blocked, joined, [FromTwo(joined)], []);
    SameNet(Step(t, n, Deliver(Port(1, 0))), TwoNet(blocked || !joined, joined, [], []));
  }

  lemma TwoHears(blocked: bool, joined: bool)
    ensures var t, n, e := TwoBridges(), TwoNet(blocked, joined, [], [Bpdu(1, 0, 1)]), Deliver(Port(2, 0));
            Shape(t, n) && Enabled(t, n, e) && Step(t, n, e) == TwoNet(blocked, true, [], [])
  {
    var t, n := TwoBridges(), TwoNet(blocked, joined, [], [Bpdu(1, 0, 1)]);
    assert Handle(n.bridges[2], 0, Bpdu(1, 0, 1)) == Bridge(2, 1, LINK_COST, 0, 0, [false, false]);
    hide Handle;
    SameNet(Step(t, n, Deliver(Port(2, 0))), TwoNet(blocked, true, [], []));
  }

  lemma TwoSteps(k: nat)
    ensures StepAt(TwoBridges(), TwoState, TwoEvent, k)
  {
    hide Step, Shape, Enabled, TwoNet;
    match k % 4
    case 0 => TwoAnnounces(k > 0, k > 0);
    case 1 => OneHears(k > 4, k > 4);
    case 2 => OneAnnounces(true, k > 4);
    case _ => TwoHears(true, k > 4);
  }

  lemma TwoHearsAll(p: Port, since: nat)
    requires p in TwoBridges().peer
    ensures HearsLater(TwoBridges(), TwoState, TwoEvent, p, since)
  {
    var k := 4 * since + if p == Port(1, 0) then 5 else 7;
    assert k % 4 == if p == Port(1, 0) then 1 else 3;
    assert Told(TwoBridges(), TwoState, p, TwoState(k).inFlight[p][0], k);
    TwoSteps(k);
    assert Hears(TwoBridges(), TwoState, TwoEvent, p, since, k);
  }

  lemma TwoIsFairRun()
    ensures IsRun(TwoBridges(), TwoState, TwoEvent) && Fair(TwoBridges(), TwoState, TwoEvent)
  {
    hide StepAt, Initial, WellFormed, HearsLater, TwoNet;
    TwoWellFormed();
    TwoInitial();
    assert TwoState(0) == TwoNet(false, false, [], []);
    forall k: nat
      ensures StepAt(TwoBridges(), TwoState, TwoEvent, k)
    {
      TwoSteps(k);
    }
    forall p, since: nat | p in TwoBridges().peer
      ensures HearsLater(TwoBridges(), TwoState, TwoEvent, p, since)
    {
      TwoHearsAll(p, since);
    }
  }

  lemma Linked(a: nat, b: nat)
    requires (a == 1 && b == 2) || (a == 2 && b == 1)
    ensures Adjacent(TwoBridges(), a, b)
    ensures IsWalkBetween(TwoBridges(), [a, b], a, b) && IsWalkBetween(TwoBridges(), [a], a, a)
  {
    var t := TwoBridges();
    assert Port(b, 0) in t.peer && t.peer[Port(b, 0)].bridge == a;
  }

  lemma TwoConnected()
    ensures Connected(TwoBridges()) && IsLeast(TwoBridges(), 1)
  {
    hide IsWalk;
    Linked(1, 2);
    Linked(2, 1);
    assert TwoBridges().ports.Keys == {1, 2};
  }

  lemma FirstArrival()
    ensures Arrives(TwoState, TwoEvent, 1, Port(1, 0)) && TwoState(1).inFlight[Port(1, 0)][0].root == 2
  {
  }

  /**
   On a fair run of two bridges, the one with the larger id being the first to announce, the network settles and yet
   its only link stays blocked at the root for ever.
   */
  lemma OnlyLinkStaysBlocked() returns (since: nat)
    ensures IsRun(TwoBridges(), TwoState, TwoEvent) && Fair(TwoBridges(), TwoState, TwoEvent)
    ensures TwoBridges().peer.Keys == {Port(1, 0), Port(2, 0)} && IsLeast(TwoBridges(), 1)
    ensures forall n: nat :: n >= since ==>
              AllSettled(TwoBridges(), TwoState(n), 1) && IsBlocked(TwoState(n), Port(1, 0))
  {
    hide IsRun, Fair, AllSettled, IsBlocked, Arrives, IsLeast, Connected, TwoNet, TwoEvent, TwoState;
    TwoIsFairRun();
    TwoConnected();
    FirstArrival();
    since := Converges(TwoBridges(), TwoState, TwoEvent, 1);
    since := since + 2;
    forall n: nat | n >= since
      ensures IsBlocked(TwoState(n), Port(1, 0))
    {
      LeastBlockedIff(TwoBridges(), TwoState, TwoEvent, n, Port(1, 0));
    }
  }
}
