/**
 A network of bridges exchanging BPDUs over point-to-point links that keep order but may lose messages.
 Bridges are named by their ids.
 */
module SpanningTreeNet {
  import opened Counting
  import opened SpanningTree

  datatype Port = Port(bridge: nat, number: nat)

  /** How many ports each bridge has, and which port is at the other end of each link. */
  datatype Topology = Topology(ports: map<nat, nat>, peer: map<Port, Port>)

  /** The bridges' states, and the messages in flight towards each port, oldest first. */
  datatype Net = Net(bridges: map<nat, Bridge>, inFlight: map<Port, seq<Bpdu>>)

  datatype Event =
    | Announce(bridge: nat, device: nat, time: nat)
    | Deliver(to: Port)
    | Lose(to: Port, index: nat)

  ghost predicate WellFormed(t: Topology) {
    && (forall p :: p in t.peer ==> p.bridge in t.ports && p.number < t.ports[p.bridge])
    && (forall p :: p in t.peer ==> t.peer[p] in t.peer && t.peer[t.peer[p]] == p)
    && LINK_COST * (|t.ports| + 1) < COSTS
  }

  ghost predicate Shape(t: Topology, n: Net) {
    && n.bridges.Keys == t.ports.Keys && n.inFlight.Keys == t.peer.Keys
    && forall b :: b in t.ports ==> n.bridges[b].self == b && |n.bridges[b].disabled| == t.ports[b]
  }

  ghost predicate Initial(t: Topology, n: Net) {
    && Shape(t, n)
    && (forall b :: b in t.ports ==> n.bridges[b] == Fresh(b, t.ports[b]))
    && forall p :: p in t.peer ==> n.inFlight[p] == []
  }

  /** A bridge sends a message out of all its ports but one. */
  ghost function Flood(t: Topology, inFlight: map<Port, seq<Bpdu>>, bridge: nat, except: nat, m: Bpdu): map<Port,
                       seq<Bpdu>>
  {
    map p | p in inFlight ::
      if p in t.peer && t.peer[p].bridge == bridge && t.peer[p].number != except then inFlight[p] + [m] else inFlight[p]
  }

  ghost predicate Enabled(t: Topology, n: Net, e: Event)
    requires Shape(t, n)
  {
    match e
    case Announce(b, device, time) => b in t.ports && device < t.ports[b]
    case Deliver(to) => to in t.peer && to.bridge in t.ports && to.number < t.ports[to.bridge] && n.inFlight[to] != []
    case Lose(to, index) => to in t.peer && index < |n.inFlight[to]|
  }

  ghost function Step(t: Topology, n: Net, e: Event): Net
    requires Shape(t, n) && Enabled(t, n, e)
  {
    match e
    case Announce(b, device, time) =>
      var s := n.bridges[b];
      Net(n.bridges[b := s.(lastUpdate := time)], Flood(t, n.inFlight, b, device, Announcement(s)))
    case Deliver(to) =>
      var s, m := n.bridges[to.bridge], n.inFlight[to][0];
      var s' := Handle(s, to.number, m);
      var rest := n.inFlight[to := n.inFlight[to][1..]];
      Net(n.bridges[to.bridge := s'],
          if Updates(s, to.number, m) then Flood(t, rest, to.bridge, to.number, Announcement(s')) else rest)
    case Lose(to, index) =>
      n.(inFlight := n.inFlight[to := n.inFlight[to][..index] + n.inFlight[to][index + 1..]])
  }

  ghost predicate Adjacent(t: Topology, a: nat, b: nat) {
    exists p :: p in t.peer && p.bridge == b && t.peer[p].bridge == a
  }

  /** A sequence of bridges, each linked to the next. */
  ghost predicate IsWalk(t: Topology, w: seq<nat>) {
    && w != []
    && (forall k: nat :: k < |w| ==> w[k] in t.ports)
    && forall k: nat :: k + 1 < |w| ==> Adjacent(t, w[k], w[k + 1])
  }

  /** A view of root and cost no worse than another. */
  predicate NoWorse(root: nat, cost: nat, root': nat, cost': nat) {
    root < root' || (root == root' && cost <= cost')
  }

  /**
   A path backs a (root, cost) held by the bridge it ends in: it starts at the root, visits no bridge twice, its
   length gives the cost, and no bridge on it knows less than its position on it.
   */
  ghost predicate Backs(t: Topology, n: Net, path: seq<nat>, root: nat, cost: nat, end: nat) {
    && IsWalk(t, path) && Distinct(path)
    && path[0] == root && path[|path| - 1] == end && cost == LINK_COST * (|path| - 1)
    && forall k: nat :: k < |path| ==>
         path[k] in n.bridges && NoWorse(n.bridges[path[k]].root, n.bridges[path[k]].rootCost, root, LINK_COST * k)
  }

  ghost predicate Backed(t: Topology, n: Net, root: nat, cost: nat, end: nat) {
    exists path :: Backs(t, n, path, root, cost, end)
  }

  /** Everything held or in flight is backed by a path. */
  ghost predicate AllBacked(t: Topology, n: Net)
    requires WellFormed(t) && Shape(t, n)
  {
    && (forall b :: b in t.ports ==> Backed(t, n, n.bridges[b].root, n.bridges[b].rootCost, b))
    && forall p, i: nat :: p in t.peer && i < |n.inFlight[p]| ==>
         Backed(t, n, n.inFlight[p][i].root, n.inFlight[p][i].rootCost, t.peer[p].bridge)
  }

  /** No bridge's view got worse from `n` to `n'`. */
  ghost predicate Improves(t: Topology, n: Net, n': Net)
    requires Shape(t, n) && Shape(t, n')
  {
    forall b :: b in t.ports ==>
      NoWorse(n'.bridges[b].root, n'.bridges[b].rootCost, n.bridges[b].root, n.bridges[b].rootCost)
  }

  lemma StepShape(t: Topology, n: Net, e: Event)
    requires Shape(t, n) && Enabled(t, n, e)
    ensures Shape(t, Step(t, n, e)) && Improves(t, n, Step(t, n, e))
  {
  }

  lemma BackedStays(t: Topology, n: Net, n': Net, root: nat, cost: nat, end: nat)
    requires Shape(t, n) && Shape(t, n') && Improves(t, n, n') && Backed(t, n, root, cost, end)
    ensures Backed(t, n', root, cost, end)
  {
    var path :| Backs(t, n, path, root, cost, end);
    assert Backs(t, n', path, root, cost, end);
  }

  /** A path that visits no bridge twice is no longer than there are bridges. */
  lemma PathShort(t: Topology, path: seq<nat>)
    requires IsWalk(t, path) && Distinct(path)
    ensures |path| <= |t.ports|
  {
    DistinctSize(path);
    CardinalityMonotone(Entered(path), t.ports.Keys);
  }

  /** Costs stay far below the 32-bit limit, so adding a link never wraps. */
  lemma BackedCostSmall(t: Topology, n: Net, root: nat, cost: nat, end: nat)
    requires WellFormed(t) && Backed(t, n, root, cost, end)
    ensures cost + LINK_COST < COSTS
  {
    var path :| Backs(t, n, path, root, cost, end);
    PathShort(t, path);
  }

  /** What is backed is no better than what the bridge it ends in holds now, and stems from a bridge that exists. */
  lemma BackedBySender(t: Topology, n: Net, root: nat, cost: nat, end: nat)
    requires Shape(t, n) && Backed(t, n, root, cost, end)
    ensures end in t.ports && root in t.ports
    ensures NoWorse(n.bridges[end].root, n.bridges[end].rootCost, root, cost)
    ensures root == end ==> cost == 0
  {
    var path :| Backs(t, n, path, root, cost, end);
    assert path[|path| - 1] == end;
  }

  /** A bridge that takes over a better root or cost extends the sender's path, on which it cannot have been. */
  lemma AdoptedBacked(t: Topology, n: Net, n': Net, to: Port, m: Bpdu)
    requires WellFormed(t) && Shape(t, n) && Shape(t, n') && Improves(t, n, n') && to in t.peer
    requires Backed(t, n, m.root, m.rootCost, t.peer[to].bridge)
    requires var s := n.bridges[to.bridge]; m.root < s.root || (m.root == s.root && CostVia(m) < s.rootCost)
    requires var s' := n'.bridges[to.bridge]; s'.root == m.root && s'.rootCost == CostVia(m)
    ensures Backed(t, n', m.root, CostVia(m), to.bridge)
  {
    BackedCostSmall(t, n, m.root, m.rootCost, t.peer[to].bridge);
    var path :| Backs(t, n, path, m.root, m.rootCost, t.peer[to].bridge);
    assert Adjacent(t, path[|path| - 1], to.bridge);
    assert to.bridge !in path;
    WalkExtends(t, path, to.bridge);
    hide IsWalk, Distinct, Adjacent;
    assert Backs(t, n', path + [to.bridge], m.root, CostVia(m), to.bridge);
  }

  lemma WalkExtends(t: Topology, path: seq<nat>, b: nat)
    requires IsWalk(t, path) && Distinct(path) && b in t.ports && b !in path && Adjacent(t, path[|path| - 1], b)
    ensures IsWalk(t, path + [b]) && Distinct(path + [b])
  {
    hide Adjacent;
    var path' := path + [b];
    forall k: nat | k + 1 < |path'|
      ensures Adjacent(t, path'[k], path'[k + 1])
    {
    }
  }

  /** The backing of everything after a step that changes one bridge and floods nothing but that bridge's view. */
  ghost predicate FloodsOwnView(t: Topology, n: Net, n': Net, b: nat)
    requires WellFormed(t) && Shape(t, n) && Shape(t, n')
  {
    && b in t.ports
    && (forall c :: c in t.ports && c != b ==> n'.bridges[c] == n.bridges[c])
    && forall p, i: nat :: p in t.peer && i < |n'.inFlight[p]| ==>
         || n'.inFlight[p][i] in n.inFlight[p]
         || (t.peer[p].bridge == b && n'.inFlight[p][i] == Announcement(n'.bridges[b]))
  }

  lemma FloodKeepsBacked(t: Topology, n: Net, n': Net, b: nat)
    requires WellFormed(t) && Shape(t, n) && Shape(t, n') && AllBacked(t, n) && Improves(t, n, n')
    requires FloodsOwnView(t, n, n', b)
    requires Backed(t, n', n'.bridges[b].root, n'.bridges[b].rootCost, b)
    ensures AllBacked(t, n')
  {
    hide Backed;
    forall c | c in t.ports
      ensures Backed(t, n', n'.bridges[c].root, n'.bridges[c].rootCost, c)
    {
      if c != b {
        BackedStays(t, n, n', n.bridges[c].root, n.bridges[c].rootCost, c);
      }
    }
    forall p, i: nat | p in t.peer && i < |n'.inFlight[p]|
      ensures Backed(t, n', n'.inFlight[p][i].root, n'.inFlight[p][i].rootCost, t.peer[p].bridge)
    {
      var m := n'.inFlight[p][i];
      if m in n.inFlight[p] {
        var j :| 0 <= j < |n.inFlight[p]| && n.inFlight[p][j] == m;
        BackedStays(t, n, n', m.root, m.rootCost, t.peer[p].bridge);
      }
    }
  }

  lemma AnnounceFloods(t: Topology, n: Net, e: Event)
    requires WellFormed(t) && Shape(t, n) && Enabled(t, n, e) && e.Announce? && Shape(t, Step(t, n, e))
    ensures FloodsOwnView(t, n, Step(t, n, e), e.bridge)
  {
  }

  lemma DeliverFloods(t: Topology, n: Net, e: Event)
    requires WellFormed(t) && Shape(t, n) && Enabled(t, n, e) && e.Deliver? && Shape(t, Step(t, n, e))
    ensures FloodsOwnView(t, n, Step(t, n, e), e.to.bridge)
  {
    hide Handle, Updates, Announcement, WellFormed;
    var rest := n.inFlight[e.to := n.inFlight[e.to][1..]];
    TailInFlight(n, e.to);
    var n' := Step(t, n, e);
    forall p, i: nat | p in t.peer && i < |n'.inFlight[p]|
      ensures n'.inFlight[p][i] in n.inFlight[p] ||
              (t.peer[p].bridge == e.to.bridge && n'.inFlight[p][i] == Announcement(n'.bridges[e.to.bridge]))
    {
      assert i < |rest[p]| ==> n'.inFlight[p][i] == rest[p][i];
    }
  }

  lemma TailInFlight(n: Net, to: Port)
    requires to in n.inFlight && n.inFlight[to] != []
    ensures var rest := n.inFlight[to := n.inFlight[to][1..]];
            forall p, i: nat :: p in n.inFlight && i < |rest[p]| ==> rest[p][i] in n.inFlight[p]
  {
  }

  lemma LoseFloods(t: Topology, n: Net, e: Event)
    requires WellFormed(t) && Shape(t, n) && Enabled(t, n, e) && e.Lose? && Shape(t, Step(t, n, e))
    ensures FloodsOwnView(t, n, Step(t, n, e), e.to.bridge)
  {
    var kept := n.inFlight[e.to][..e.index] + n.inFlight[e.to][e.index + 1..];
    assert forall m :: m in kept ==> m in n.inFlight[e.to];
  }

  function ChangedBridge(e: Event): nat {
    match e case Announce(b, _, _) => b case Deliver(to) => to.bridge case Lose(to, _) => to.bridge
  }

  lemma StepKeepsBacked(t: Topology, n: Net, e: Event)
    requires WellFormed(t) && Shape(t, n) && Enabled(t, n, e) && AllBacked(t, n)
    ensures Shape(t, Step(t, n, e)) && AllBacked(t, Step(t, n, e))
  {
    var n' := Step(t, n, e);
    StepShape(t, n, e);
    var b := ChangedBridge(e);
    match e {
      case Announce(_, _, _) => AnnounceFloods(t, n, e);
      case Deliver(_) => DeliverFloods(t, n, e);
      case Lose(_, _) => LoseFloods(t, n, e);
    }
    StepBacks(t, n, e);
    hide Step, Backed, Improves, FloodsOwnView;
    FloodKeepsBacked(t, n, n', b);
  }

  /** The bridge that takes the step is backed afterwards. */
  lemma StepBacks(t: Topology, n: Net, e: Event)
    requires WellFormed(t) && Shape(t, n) && Enabled(t, n, e) && AllBacked(t, n)
    requires Shape(t, Step(t, n, e)) && Improves(t, n, Step(t, n, e))
    ensures var s := Step(t, n, e).bridges[ChangedBridge(e)];
            ChangedBridge(e) in t.ports && Backed(t, Step(t, n, e), s.root, s.rootCost, ChangedBridge(e))
  {
    hide Backed;
    var n' := Step(t, n, e);
    var b := ChangedBridge(e);
    if e.Deliver? && RankOf(n'.bridges[b]) != RankOf(n.bridges[b]) {
      var m := n.inFlight[e.to][0];
      assert Backed(t, n, m.root, m.rootCost, t.peer[e.to].bridge);
      if m.root < n.bridges[b].root || CostVia(m) < n.bridges[b].rootCost {
        AdoptedBacked(t, n, n', e.to, m);
      } else {
        BackedStays(t, n, n', n.bridges[b].root, n.bridges[b].rootCost, b);
      }
    } else {
      BackedStays(t, n, n', n.bridges[b].root, n.bridges[b].rootCost, b);
    }
  }

  /** Messages on a link announce ever smaller roots. */
  ghost predicate Ordered(messages: seq<Bpdu>) {
    forall i: nat, j: nat :: i < j < |messages| ==> messages[i].root >= messages[j].root
  }

  ghost predicate AllOrdered(t: Topology, n: Net)
    requires Shape(t, n)
  {
    forall p :: p in t.peer ==> Ordered(n.inFlight[p])
  }

  ghost predicate NoneAbove(messages: seq<Bpdu>, root: nat) {
    forall i: nat :: i < |messages| ==> messages[i].root <= root
  }

  /**
   A bridge that follows another root has an open root port, whose far end is one link nearer to the root
   or knows better, and through which nothing worse than its root is coming.
   */
  ghost predicate Guided(t: Topology, n: Net, b: nat)
    requires WellFormed(t) && Shape(t, n) && b in t.ports
  {
    var s := n.bridges[b];
    && s.root <= b
    && (s.root != b ==>
      var p := Port(b, s.rootPort);
      && p in t.peer && s.rootPort < |s.disabled| && !s.disabled[s.rootPort]
      && NoneAbove(n.inFlight[p], s.root)
      && var u := n.bridges[t.peer[p].bridge];
         NoWorse(u.root, u.rootCost + LINK_COST, s.root, s.rootCost))
  }

  ghost predicate Inv(t: Topology, n: Net) {
    && WellFormed(t) && Shape(t, n) && AllBacked(t, n) && AllOrdered(t, n)
    && forall b :: b in t.ports ==> Guided(t, n, b)
  }

  lemma InitialBacked(t: Topology, n: Net)
    requires WellFormed(t) && Initial(t, n)
    ensures AllBacked(t, n)
  {
    forall b | b in t.ports
      ensures Backed(t, n, n.bridges[b].root, n.bridges[b].rootCost, b)
    {
      assert Backs(t, n, [b], b, 0, b);
    }
  }

  lemma InitialInv(t: Topology, n: Net)
    requires WellFormed(t) && Initial(t, n)
    ensures Inv(t, n)
  {
    InitialBacked(t, n);
    hide AllBacked, Backed;
  }

  /** A message in flight is no better than what its sender now holds. */
  lemma SenderNoWorse(t: Topology, n: Net, p: Port, i: nat)
    requires WellFormed(t) && Shape(t, n) && AllBacked(t, n) && p in t.peer && i < |n.inFlight[p]|
    ensures var u, m := n.bridges[t.peer[p].bridge], n.inFlight[p][i];
            NoWorse(u.root, u.rootCost, m.root, m.rootCost)
  {
    BackedBySender(t, n, n.inFlight[p][i].root, n.inFlight[p][i].rootCost, t.peer[p].bridge);
  }

  lemma AppendOrdered(messages: seq<Bpdu>, m: Bpdu)
    requires Ordered(messages) && forall i: nat :: i < |messages| ==> messages[i].root >= m.root
    ensures Ordered(messages + [m])
  {
  }

  /** What a bridge adds to its links announces a root no larger than anything still on them. */
  lemma FloodOrdered(t: Topology, n: Net, inFlight: map<Port, seq<Bpdu>>, b: nat, except: nat, m: Bpdu, p: Port)
    requires WellFormed(t) && Shape(t, n) && AllBacked(t, n) && b in t.ports && p in t.peer && p in inFlight
    requires m.root <= n.bridges[b].root
    requires Ordered(inFlight[p]) && forall i: nat :: i < |inFlight[p]| ==> inFlight[p][i] in n.inFlight[p]
    ensures Ordered(Flood(t, inFlight, b, except, m)[p])
  {
    hide Backed, AllBacked, WellFormed, Ordered;
    if t.peer[p].bridge == b {
      forall i: nat | i < |inFlight[p]|
        ensures inFlight[p][i].root >= m.root
      {
        assert inFlight[p][i] in n.inFlight[p];
        var j :| 0 <= j < |n.inFlight[p]| && n.inFlight[p][j] == inFlight[p][i];
        SenderNoWorse(t, n, p, j);
      }
      AppendOrdered(inFlight[p], m);
    }
  }

  lemma StepKeepsOrdered(t: Topology, n: Net, e: Event)
    requires WellFormed(t) && Shape(t, n) && AllBacked(t, n) && AllOrdered(t, n)
    requires Enabled(t, n, e) && Shape(t, Step(t, n, e))
    ensures AllOrdered(t, Step(t, n, e))
  {
    hide Backed, AllBacked, WellFormed, Handle, Updates;
    var n' := Step(t, n, e);
    forall p | p in t.peer
      ensures Ordered(n'.inFlight[p])
    {
      match e {
        case Announce(b, device, time) =>
          FloodOrdered(t, n, n.inFlight, b, device, Announcement(n.bridges[b]), p);
        case Deliver(to) =>
          var rest := n.inFlight[to := n.inFlight[to][1..]];
          HandleNoWorse(n.bridges[to.bridge], to.number, n.inFlight[to][0]);
          FloodOrdered(t, n, rest, to.bridge, to.number, Announcement(n'.bridges[to.bridge]), p);
        case Lose(_, _) =>
      }
    }
  }

  lemma HandleNoWorse(s: Bridge, port: nat, m: Bpdu)
    requires port < |s.disabled|
    ensures Handle(s, port, m).root <= s.root
  {
  }

  /** A bridge that does not take the step stays guided. */
  lemma OthersStayGuided(t: Topology, n: Net, n': Net, b: nat, c: nat)
    requires WellFormed(t) && Shape(t, n) && Shape(t, n') && Improves(t, n, n') && FloodsOwnView(t, n, n', b)
    requires c in t.ports && c != b && Guided(t, n, c)
    ensures Guided(t, n', c)
  {
    var s := n.bridges[c];
    if s.root != c {
      var p := Port(c, s.rootPort);
      forall i: nat | i < |n'.inFlight[p]|
        ensures n'.inFlight[p][i].root <= s.root
      {
        var m := n'.inFlight[p][i];
        if m in n.inFlight[p] {
          var j: nat :| j < |n.inFlight[p]| && n.inFlight[p][j] == m;
        }
      }
    }
  }

  /** So does one whose root, cost, port and flags stay the same. */
  lemma UnchangedStaysGuided(t: Topology, n: Net, n': Net, b: nat)
    requires WellFormed(t) && Shape(t, n) && Shape(t, n') && Improves(t, n, n') && FloodsOwnView(t, n, n', b)
    requires Guided(t, n, b) && RankOf(n'.bridges[b]) == RankOf(n.bridges[b])
    requires var s := n.bridges[b]; s.root != b ==> s.rootPort < |s.disabled| && !n'.bridges[b].disabled[s.rootPort]
    ensures Guided(t, n', b)
  {
    var s := n.bridges[b];
    if s.root != b {
      var p := Port(b, s.rootPort);
      forall i: nat | i < |n'.inFlight[p]|
        ensures n'.inFlight[p][i].root <= s.root
      {
        var m := n'.inFlight[p][i];
        if m in n.inFlight[p] {
          var j: nat :| j < |n.inFlight[p]| && n.inFlight[p][j] == m;
        }
      }
    }
  }

  /** A bridge updated through a port is guided through it: links keep order, so nothing worse is still coming. */
  lemma UpdatedIsGuided(t: Topology, n: Net, to: Port)
    requires WellFormed(t) && Shape(t, n) && AllBacked(t, n) && AllOrdered(t, n)
    requires Enabled(t, n, Deliver(to)) && Guided(t, n, to.bridge)
    requires Updates(n.bridges[to.bridge], to.number, n.inFlight[to][0])
    requires Shape(t, Step(t, n, Deliver(to)))
    ensures Guided(t, Step(t, n, Deliver(to)), to.bridge)
  {
    hide Backed, AllBacked;
    var b, m, n' := to.bridge, n.inFlight[to][0], Step(t, n, Deliver(to));
    var u := t.peer[to].bridge;
    SenderNoWorse(t, n, to, 0);
    HeadCostSmall(t, n, to);
    assert u != b;
    assert n'.inFlight[to] == n.inFlight[to][1..];
    assert n'.bridges[u] == n.bridges[u];
    assert NoneAbove(n'.inFlight[to], m.root);
  }

  lemma HeadCostSmall(t: Topology, n: Net, to: Port)
    requires WellFormed(t) && Shape(t, n) && AllBacked(t, n) && to in t.peer && n.inFlight[to] != []
    ensures CostVia(n.inFlight[to][0]) == n.inFlight[to][0].rootCost + LINK_COST
  {
    hide Backed;
    var m := n.inFlight[to][0];
    BackedCostSmall(t, n, m.root, m.rootCost, t.peer[to].bridge);
  }

  lemma StepKeepsGuided(t: Topology, n: Net, e: Event, c: nat)
    requires Inv(t, n) && Enabled(t, n, e) && Shape(t, Step(t, n, e)) && c in t.ports
    ensures Guided(t, Step(t, n, e), c)
  {
    hide Backed, AllBacked, Guided, FloodsOwnView;
    var n', b := Step(t, n, e), ChangedBridge(e);
    StepShape(t, n, e);
    match e {
      case Announce(_, _, _) => AnnounceFloods(t, n, e);
      case Deliver(_) => DeliverFloods(t, n, e);
      case Lose(_, _) => LoseFloods(t, n, e);
    }
    if c != b {
      OthersStayGuided(t, n, n', b, c);
    } else if e.Deliver? && Updates(n.bridges[b], e.to.number, n.inFlight[e.to][0]) {
      UpdatedIsGuided(t, n, e.to);
    } else {
      RootPortStaysOpen(t, n, e);
      UnchangedStaysGuided(t, n, n', b);
    }
  }

  /** A worse root never comes in through the root port, so that port is not blocked. */
  lemma RootPortStaysOpen(t: Topology, n: Net, e: Event)
    requires Inv(t, n) && Enabled(t, n, e)
    requires e.Deliver? ==> !Updates(n.bridges[e.to.bridge], e.to.number, n.inFlight[e.to][0])
    ensures ChangedBridge(e) in t.ports
    ensures var b := ChangedBridge(e);
            var s, s' := n.bridges[b], Step(t, n, e).bridges[b];
            && RankOf(s') == RankOf(s)
            && (s.root != b ==> s.rootPort < |s'.disabled| == |s.disabled| && !s'.disabled[s.rootPort])
  {
    hide AllBacked, AllOrdered;
    var b := ChangedBridge(e);
    assert Guided(t, n, b);
  }

  /** Every step of the network keeps the invariant. */
  lemma StepKeeps(t: Topology, n: Net, e: Event)
    requires Inv(t, n) && Enabled(t, n, e)
    ensures Inv(t, Step(t, n, e))
  {
    StepShape(t, n, e);
    StepKeepsBacked(t, n, e);
    StepKeepsOrdered(t, n, e);
    forall c | c in t.ports
      ensures Guided(t, Step(t, n, e), c)
    {
      StepKeepsGuided(t, n, e, c);
    }
    hide Step, AllBacked, AllOrdered, Guided;
  }
}
