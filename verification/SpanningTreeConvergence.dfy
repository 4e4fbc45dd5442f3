/** When no neighbour has news the network is a shortest-path tree, and on fair runs that moment comes. */
module SpanningTreeConvergence {
  import opened SpanningTree
  import opened SpanningTreeNet

  ghost predicate IsLeast(t: Topology, m: nat) {
    m in t.ports && forall b :: b in t.ports ==> m <= b
  }

  ghost predicate IsWalkBetween(t: Topology, w: seq<nat>, a: nat, b: nat) {
    IsWalk(t, w) && w[0] == a && w[|w| - 1] == b
  }

  ghost predicate Connected(t: Topology) {
    forall a, b :: a in t.ports && b in t.ports ==> exists w :: IsWalkBetween(t, w, a, b)
  }

  /** The least number of links between two bridges is `d`. */
  ghost predicate Hops(t: Topology, a: nat, b: nat, d: nat) {
    && (exists w :: IsWalkBetween(t, w, a, b) && |w| == d + 1)
    && forall w :: IsWalkBetween(t, w, a, b) ==> |w| >= d + 1
  }

  /** No bridge would be updated by what any neighbour now holds. */
  ghost predicate Stable(t: Topology, n: Net)
    requires WellFormed(t) && Shape(t, n)
  {
    forall p :: p in t.peer ==> !Updates(n.bridges[p.bridge], p.number, Announcement(n.bridges[t.peer[p].bridge]))
  }

  /** A BPDU that a neighbour could send now would change some root or cost. */
  ghost predicate HasNews(t: Topology, n: Net, p: Port)
    requires WellFormed(t) && Shape(t, n) && p in t.peer
  {
    var s, m := n.bridges[p.bridge], Announcement(n.bridges[t.peer[p].bridge]);
    m.root < s.root || (m.root == s.root && CostVia(m) < s.rootCost)
  }

  /** No neighbour has news of a root or a cost; root ports may still change. */
  ghost predicate Quiet(t: Topology, n: Net)
    requires WellFormed(t) && Shape(t, n)
  {
    forall p :: p in t.peer ==> !HasNews(t, n, p)
  }

  lemma StableIsQuiet(t: Topology, n: Net)
    requires WellFormed(t) && Shape(t, n) && Stable(t, n)
    ensures Quiet(t, n)
  {
    forall p | p in t.peer
      ensures !HasNews(t, n, p)
    {
      assert !Updates(n.bridges[p.bridge], p.number, Announcement(n.bridges[t.peer[p].bridge]));
    }
  }

  /** The bridge at the far end of a port is one link nearer to the root. */
  ghost predicate Nearer(t: Topology, n: Net, p: Port)
    requires WellFormed(t) && Shape(t, n) && p in t.peer
  {
    n.bridges[t.peer[p].bridge].rootCost + LINK_COST == n.bridges[p.bridge].rootCost
  }

  /**
   The bridge agrees that `m` is the root, knows its exact distance from it, and, unless it is the root itself,
   has for its root port the least port that leads one link nearer.
   */
  ghost predicate Settled(t: Topology, n: Net, m: nat, b: nat)
    requires WellFormed(t) && Shape(t, n) && b in t.ports
  {
    var s := n.bridges[b];
    && KnowsDistance(t, n, m, b)
    && (b != m ==> Port(b, s.rootPort) in t.peer && Nearer(t, n, Port(b, s.rootPort)))
    && (b != m ==> forall q :: q in t.peer && q.bridge == b && Nearer(t, n, q) ==> s.rootPort <= q.number)
  }

  ghost predicate AllSettled(t: Topology, n: Net, m: nat) {
    Inv(t, n) && forall b :: b in t.ports ==> Settled(t, n, m, b)
  }

  lemma NeighbourCost(t: Topology, n: Net, u: nat)
    requires Inv(t, n) && u in t.ports
    ensures CostVia(Announcement(n.bridges[u])) == n.bridges[u].rootCost + LINK_COST
  {
    hide Backed, AllOrdered, Guided;
    BackedCostSmall(t, n, n.bridges[u].root, n.bridges[u].rootCost, u);
  }

  /** Linked bridges of a quiet network agree on the root, and their costs differ by at most one link. */
  lemma QuietEdge(t: Topology, n: Net, p: Port)
    requires Inv(t, n) && Quiet(t, n) && p in t.peer
    ensures n.bridges[p.bridge].root == n.bridges[t.peer[p].bridge].root
    ensures n.bridges[p.bridge].rootCost <= n.bridges[t.peer[p].bridge].rootCost + LINK_COST
  {
    hide AllBacked, AllOrdered, Guided;
    NeighbourCost(t, n, t.peer[p].bridge);
    assert !HasNews(t, n, p) && !HasNews(t, n, t.peer[p]);
  }

  lemma LeastIsItsOwnRoot(t: Topology, n: Net, m: nat)
    requires Inv(t, n) && IsLeast(t, m)
    ensures n.bridges[m].root == m && n.bridges[m].rootCost == 0
  {
    hide Backed, AllOrdered;
    assert Guided(t, n, m);
    BackedBySender(t, n, n.bridges[m].root, n.bridges[m].rootCost, m);
  }

  /** Along any walk from the least bridge the root is the same and the cost grows by at most one link a step. */
  lemma {:induction false} AlongWalk(t: Topology, n: Net, m: nat, w: seq<nat>)
    requires Inv(t, n) && Quiet(t, n) && IsLeast(t, m) && IsWalk(t, w) && w[0] == m
    ensures w[|w| - 1] in t.ports
    ensures n.bridges[w[|w| - 1]].root == m && n.bridges[w[|w| - 1]].rootCost <= LINK_COST * (|w| - 1)
    decreases |w|
  {
    hide Inv, Quiet;
    LeastIsItsOwnRoot(t, n, m);
    if |w| > 1 {
      var init := w[..|w| - 1];
      assert IsWalk(t, init) by {
        forall k: nat | k + 1 < |init|
          ensures Adjacent(t, init[k], init[k + 1])
        {
          assert Adjacent(t, w[k], w[k + 1]);
        }
      }
      AlongWalk(t, n, m, init);
      var k := |w| - 2;
      assert Adjacent(t, w[k], w[k + 1]);
      var p :| p in t.peer && p.bridge == w[k + 1] && t.peer[p].bridge == w[k];
      QuietEdge(t, n, p);
    }
  }

  lemma HeldBacked(t: Topology, n: Net, b: nat)
    requires Inv(t, n) && b in t.ports
    ensures Backed(t, n, n.bridges[b].root, n.bridges[b].rootCost, b)
  {
    hide Backed;
  }

  /** The bridge agrees that `m` is the root and knows its exact distance from it. */
  ghost predicate KnowsDistance(t: Topology, n: Net, m: nat, b: nat)
    requires WellFormed(t) && Shape(t, n) && b in t.ports
  {
    var s := n.bridges[b];
    s.root == m && s.rootCost % LINK_COST == 0 && Hops(t, m, b, s.rootCost / LINK_COST)
  }

  /** In a quiet connected network a bridge's cost is its exact distance from the least bridge. */
  lemma QuietCostIsDistance(t: Topology, n: Net, m: nat, b: nat)
    requires Inv(t, n) && Quiet(t, n) && IsLeast(t, m) && Connected(t) && b in t.ports
    ensures KnowsDistance(t, n, m, b)
  {
    hide Quiet, Backed, AllBacked, AllOrdered, Guided, IsWalk;
    var s := n.bridges[b];
    forall w | IsWalkBetween(t, w, m, b)
      ensures s.root == m && s.rootCost <= LINK_COST * (|w| - 1)
    {
      AlongWalk(t, n, m, w);
    }
    assert exists w :: IsWalkBetween(t, w, m, b);
    HeldBacked(t, n, b);
    BackedWalk(t, n, m, s.rootCost, b);
  }

  lemma BackedWalk(t: Topology, n: Net, m: nat, cost: nat, b: nat)
    requires Backed(t, n, m, cost, b)
    ensures cost % LINK_COST == 0 && exists w :: IsWalkBetween(t, w, m, b) && |w| == cost / LINK_COST + 1
  {
    var path :| Backs(t, n, path, m, cost, b);
    assert IsWalkBetween(t, path, m, b);
  }

  /** In a stable network the root port is the least of the ports that lead one link nearer to the root. */
  lemma StableRootPort(t: Topology, n: Net, m: nat, b: nat)
    requires Inv(t, n) && Stable(t, n) && b in t.ports && n.bridges[b].root == m != b
    ensures var p := Port(b, n.bridges[b].rootPort);
            && p in t.peer && Nearer(t, n, p)
            && forall q :: q in t.peer && q.bridge == b && Nearer(t, n, q) ==> p.number <= q.number
  {
    hide AllBacked, AllOrdered;
    assert Guided(t, n, b);
    var p := Port(b, n.bridges[b].rootPort);
    StableIsQuiet(t, n);
    QuietEdge(t, n, p);
    forall q | q in t.peer && q.bridge == b && Nearer(t, n, q)
      ensures p.number <= q.number
    {
      LeastNearerPort(t, n, q);
    }
  }

  lemma LeastNearerPort(t: Topology, n: Net, q: Port)
    requires Inv(t, n) && Stable(t, n) && q in t.peer && Nearer(t, n, q)
    ensures n.bridges[q.bridge].rootPort <= q.number
  {
    hide AllBacked, AllOrdered, Guided;
    NeighbourCost(t, n, t.peer[q].bridge);
    assert !Updates(n.bridges[q.bridge], q.number, Announcement(n.bridges[t.peer[q].bridge]));
  }

  /**
   If no neighbour's BPDU would change anything, a connected network has settled into the shortest-path tree of its
   least bridge.
   */
  lemma StableIsSettled(t: Topology, n: Net, m: nat, b: nat)
    requires Inv(t, n) && Stable(t, n) && IsLeast(t, m) && Connected(t) && b in t.ports
    ensures Settled(t, n, m, b)
  {
    hide Stable, Quiet, AllBacked, AllOrdered, Guided, Hops;
    StableIsQuiet(t, n);
    QuietCostIsDistance(t, n, m, b);
    if b != m {
      StableRootPort(t, n, m, b);
    }
  }

  /** Conversely a settled network is stable. */
  lemma SettledIsStable(t: Topology, n: Net, m: nat)
    requires Inv(t, n) && IsLeast(t, m) && forall b :: b in t.ports ==> Settled(t, n, m, b)
    ensures Stable(t, n)
  {
    hide Backed, AllBacked, AllOrdered, Guided, Hops;
    forall p | p in t.peer
      ensures !Updates(n.bridges[p.bridge], p.number, Announcement(n.bridges[t.peer[p].bridge]))
    {
      var b, u := p.bridge, t.peer[p].bridge;
      NeighbourCost(t, n, u);
      assert Settled(t, n, m, b) && Settled(t, n, m, u);
      OneHopFurther(t, p, m, n.bridges[u].rootCost / LINK_COST, n.bridges[b].rootCost / LINK_COST);
      if b == m {
        LeastIsItsOwnRoot(t, n, m);
      }
    }
  }

  lemma OneHopFurther(t: Topology, p: Port, m: nat, d: nat, d': nat)
    requires WellFormed(t) && p in t.peer && Hops(t, m, t.peer[p].bridge, d) && Hops(t, m, p.bridge, d')
    ensures d' <= d + 1
  {
    var w :| IsWalkBetween(t, w, m, t.peer[p].bridge) && |w| == d + 1;
    var w' := w + [p.bridge];
    assert Adjacent(t, w[|w| - 1], p.bridge);
    forall k: nat | k + 1 < |w'|
      ensures Adjacent(t, w'[k], w'[k + 1])
    {
      if k + 1 < |w| {
        assert Adjacent(t, w[k], w[k + 1]);
      }
    }
    assert IsWalkBetween(t, w', m, p.bridge);
  }

  /** No neighbour has news of a root or a cost exactly when every bridge knows its distance from the least one. */
  lemma QuietIffDistances(t: Topology, n: Net, m: nat)
    requires Inv(t, n) && IsLeast(t, m) && Connected(t)
    ensures Quiet(t, n) <==> forall b :: b in t.ports ==> KnowsDistance(t, n, m, b)
  {
    hide AllBacked, AllOrdered, Guided, Quiet, KnowsDistance;
    if Quiet(t, n) {
      forall b | b in t.ports
        ensures KnowsDistance(t, n, m, b)
      {
        QuietCostIsDistance(t, n, m, b);
      }
    } else if forall b :: b in t.ports ==> KnowsDistance(t, n, m, b) {
      DistancesAreQuiet(t, n, m);
    }
  }

  lemma DistancesAreQuiet(t: Topology, n: Net, m: nat)
    requires Inv(t, n) && IsLeast(t, m) && forall b :: b in t.ports ==> KnowsDistance(t, n, m, b)
    ensures Quiet(t, n)
  {
    hide Backed, AllBacked, AllOrdered, Guided, Hops;
    forall p | p in t.peer
      ensures !HasNews(t, n, p)
    {
      var b, u := p.bridge, t.peer[p].bridge;
      NeighbourCost(t, n, u);
      assert KnowsDistance(t, n, m, b) && KnowsDistance(t, n, m, u);
      OneHopFurther(t, p, m, n.bridges[u].rootCost / LINK_COST, n.bridges[b].rootCost / LINK_COST);
    }
  }

  /** No neighbour's BPDU would change anything exactly when every bridge is settled. */
  lemma StableIffSettled(t: Topology, n: Net, m: nat)
    requires Inv(t, n) && IsLeast(t, m) && Connected(t)
    ensures Stable(t, n) <==> forall b :: b in t.ports ==> Settled(t, n, m, b)
  {
    hide AllBacked, AllOrdered, Guided, Stable, Settled;
    if Stable(t, n) {
      forall b | b in t.ports
        ensures Settled(t, n, m, b)
      {
        StableIsSettled(t, n, m, b);
      }
    } else if forall b :: b in t.ports ==> Settled(t, n, m, b) {
      SettledIsStable(t, n, m);
    }
  }

  ghost predicate StepAt(t: Topology, run: nat -> Net, events: nat -> Event, k: nat) {
    Shape(t, run(k)) && Enabled(t, run(k), events(k)) && run(k + 1) == Step(t, run(k), events(k))
  }

  /** An infinite run of the network. */
  ghost predicate IsRun(t: Topology, run: nat -> Net, events: nat -> Event) {
    WellFormed(t) && Initial(t, run(0)) && forall k: nat :: StepAt(t, run, events, k)
  }

  /** At time `k` the bridge at port `p` receives something its neighbour held no earlier than time `since`. */
  ghost predicate Hears(t: Topology, run: nat -> Net, events: nat -> Event, p: Port, since: nat, k: nat)
    requires p in t.peer
  {
    && k >= since && events(k) == Deliver(p) && Shape(t, run(k)) && run(k).inFlight[p] != []
    && exists j: nat :: since <= j <= k && Told(t, run, p, run(k).inFlight[p][0], j)
  }

  ghost predicate Told(t: Topology, run: nat -> Net, p: Port, m: Bpdu, j: nat)
    requires p in t.peer
  {
    t.peer[p].bridge in run(j).bridges && m == Announcement(run(j).bridges[t.peer[p].bridge])
  }

  /** Every port keeps receiving up-to-date announcements: bridges keep announcing, and links do not lose everything. */
  ghost predicate Fair(t: Topology, run: nat -> Net, events: nat -> Event) {
    forall p, since: nat :: p in t.peer ==> HearsLater(t, run, events, p, since)
  }

  ghost predicate HearsLater(t: Topology, run: nat -> Net, events: nat -> Event, p: Port, since: nat)
    requires p in t.peer
  {
    exists k: nat :: Hears(t, run, events, p, since, k)
  }

  lemma {:induction false} RunInv(t: Topology, run: nat -> Net, events: nat -> Event, k: nat)
    requires IsRun(t, run, events)
    ensures Inv(t, run(k))
  {
    hide Inv, Initial, Step;
    if k == 0 {
      InitialInv(t, run(0));
    } else {
      RunInv(t, run, events, k - 1);
      assert StepAt(t, run, events, k - 1);
      StepKeeps(t, run(k - 1), events(k - 1));
    }
  }

  /** Over any run, a bridge that follows another root never has its root port blocked. */
  lemma RootPortNeverBlocked(t: Topology, run: nat -> Net, events: nat -> Event, k: nat, b: nat)
    requires IsRun(t, run, events) && b in t.ports
    ensures b in run(k).bridges
    ensures var s := run(k).bridges[b]; s.root != b ==> s.rootPort < |s.disabled| && !s.disabled[s.rootPort]
  {
    hide AllBacked, AllOrdered;
    RunInv(t, run, events, k);
    assert Guided(t, run(k), b);
  }

  /** Over any run, whatever a bridge holds is realised by a path from that root that visits no bridge twice. */
  lemma HeldIsRealised(t: Topology, run: nat -> Net, events: nat -> Event, k: nat, b: nat) returns (path: seq<nat>)
    requires IsRun(t, run, events) && b in t.ports
    ensures b in run(k).bridges
    ensures IsWalkBetween(t, path, run(k).bridges[b].root, b) && run(k).bridges[b].rootCost == LINK_COST * (|path| - 1)
    ensures |path| <= |t.ports|
  {
    hide AllOrdered, Guided;
    RunInv(t, run, events, k);
    var s := run(k).bridges[b];
    assert Backed(t, run(k), s.root, s.rootCost, b);
    path :| Backs(t, run(k), path, s.root, s.rootCost, b);
    PathShort(t, path);
  }

  /** And so is every message in flight, up to the bridge that sent it. */
  lemma InFlightIsRealised(t: Topology, run: nat -> Net, events: nat -> Event, k: nat, p: Port, i: nat)
    returns (path: seq<nat>)
    requires IsRun(t, run, events) && p in t.peer && p in run(k).inFlight && i < |run(k).inFlight[p]|
    ensures var m := run(k).inFlight[p][i];
            IsWalkBetween(t, path, m.root, t.peer[p].bridge) && m.rootCost == LINK_COST * (|path| - 1)
    ensures |path| <= |t.ports|
  {
    hide AllOrdered, Guided;
    RunInv(t, run, events, k);
    var m := run(k).inFlight[p][i];
    assert Backed(t, run(k), m.root, m.rootCost, t.peer[p].bridge);
    path :| Backs(t, run(k), path, m.root, m.rootCost, t.peer[p].bridge);
    PathShort(t, path);
  }

  /** What a bridge holds at time `k`. */
  ghost function RankAt(run: nat -> Net, b: nat, k: nat): Rank {
    if b in run(k).bridges then RankOf(run(k).bridges[b]) else Rank(0, 0, 0)
  }

  ghost predicate Descends(f: nat -> Rank, k: nat) {
    f(k + 1) == f(k) || Less(f(k + 1), f(k))
  }

  ghost predicate ConstantFrom(f: nat -> Rank, since: nat) {
    forall k: nat :: k >= since ==> f(k) == f(since)
  }

  lemma {:induction false} DescendsFar(f: nat -> Rank, k: nat)
    requires forall i: nat :: Descends(f, i)
    ensures f(k) == f(0) || Less(f(k), f(0))
  {
    if k > 0 {
      DescendsFar(f, k - 1);
      assert Descends(f, k - 1);
    }
  }

  /** Updates are finite: a sequence of ranks that only ever gets smaller changes only finitely often. */
  lemma {:induction false} EventuallyConstant(f: nat -> Rank) returns (since: nat)
    requires forall k: nat :: Descends(f, k)
    ensures ConstantFrom(f, since)
    decreases f(0).root, f(0).cost, f(0).port
  {
    if k: nat :| f(k) != f(0) {
      DescendsFar(f, k);
      var g := (i: nat) => f(i + k);
      forall i: nat
        ensures Descends(g, i)
      {
        assert Descends(f, i + k);
        assert g(i + 1) == f(i + k + 1);
      }
      since := EventuallyConstant(g);
      since := since + k;
      forall i: nat | i >= since
        ensures f(i) == f(since)
      {
        assert g(i - k) == g(since - k);
      }
    } else {
      since := 0;
    }
  }

  lemma BridgeDescends(t: Topology, run: nat -> Net, events: nat -> Event, b: nat, k: nat)
    requires IsRun(t, run, events) && b in t.ports
    ensures Descends((i: nat) => RankAt(run, b, i), k)
  {
    hide Initial, Flood, Handle, Updates, Less;
    assert StepAt(t, run, events, k);
    StepShape(t, run(k), events(k));
    var e := events(k);
    if e.Deliver? {
      HandleDecreases(run(k).bridges[e.to.bridge], e.to.number, run(k).inFlight[e.to][0]);
    }
  }

  /** From some time on no bridge changes its root, cost or root port any more. */
  lemma {:induction false} AllConstant(t: Topology, run: nat -> Net, events: nat -> Event, bs: set<nat>)
    returns (since: nat)
    requires IsRun(t, run, events) && bs <= t.ports.Keys
    ensures forall b, k: nat :: b in bs && k >= since ==> RankAt(run, b, k) == RankAt(run, b, since)
  {
    hide IsRun, RankAt;
    if bs == {} {
      since := 0;
    } else {
      var b :| b in bs;
      var others := AllConstant(t, run, events, bs - {b});
      var f := (i: nat) => RankAt(run, b, i);
      forall k: nat
        ensures Descends(f, k)
      {
        BridgeDescends(t, run, events, b, k);
      }
      var own := EventuallyConstant(f);
      since := if own > others then own else others;
      forall c, k: nat | c in bs && k >= since
        ensures RankAt(run, c, k) == RankAt(run, c, since)
      {
        if c == b {
          assert f(k) == f(own) == f(since);
        }
      }
    }
  }

  lemma SameRank(t: Topology, run: nat -> Net, events: nat -> Event, k: nat, n: nat, b: nat)
    requires IsRun(t, run, events) && b in t.ports && RankAt(run, b, k) == RankAt(run, b, n)
    ensures b in run(k).bridges && b in run(n).bridges
    ensures RankOf(run(k).bridges[b]) == RankOf(run(n).bridges[b])
  {
    hide Step, Initial;
    assert StepAt(t, run, events, k) && StepAt(t, run, events, n);
  }

  /** Whether a BPDU updates a bridge depends only on ranks. */
  lemma UpdatesByRank(s: Bridge, s': Bridge, port: nat, u: Bridge, u': Bridge)
    requires RankOf(s) == RankOf(s') && RankOf(u) == RankOf(u')
    ensures Updates(s, port, Announcement(u)) == Updates(s', port, Announcement(u'))
  {
  }

  /** A message that changes nothing when it is heard has no news for its receiver. */
  lemma NothingNew(t: Topology, run: nat -> Net, events: nat -> Event, p: Port, k: nat)
    requires IsRun(t, run, events) && p in t.peer && events(k) == Deliver(p)
    requires p in run(k).inFlight && run(k).inFlight[p] != []
    requires RankAt(run, p.bridge, k + 1) == RankAt(run, p.bridge, k)
    ensures p.bridge in run(k).bridges && !Updates(run(k).bridges[p.bridge], p.number, run(k).inFlight[p][0])
  {
    assert StepAt(t, run, events, k);
    var s, m := run(k).bridges[p.bridge], run(k).inFlight[p][0];
    HandleDecreases(s, p.number, m);
    SameRank(t, run, events, k + 1, k, p.bridge);
    assert run(k + 1).bridges[p.bridge] == Handle(s, p.number, m);
  }

  /** Every bridge keeps its rank from some time on. */
  ghost predicate AllSettledFrom(t: Topology, run: nat -> Net, since: nat) {
    forall b, k: nat :: b in t.ports && k >= since ==> RankAt(run, b, k) == RankAt(run, b, since)
  }

  /** Once nothing changes any more, fairness means that nobody has news. */
  lemma ConstantMeansNoNews(t: Topology, run: nat -> Net, events: nat -> Event, since: nat, n: nat, p: Port)
    requires IsRun(t, run, events) && Fair(t, run, events) && n >= since && AllSettledFrom(t, run, since) && p in t.peer
    ensures p.bridge in run(n).bridges && t.peer[p].bridge in run(n).bridges
    ensures !Updates(run(n).bridges[p.bridge], p.number, Announcement(run(n).bridges[t.peer[p].bridge]))
  {
    hide IsRun, RankAt, Updates, Announcement, RankOf;
    assert WellFormed(t) by { WellFormedRun(t, run, events); }
    var u := t.peer[p].bridge;
    assert HearsLater(t, run, events, p, since);
    var k: nat :| Hears(t, run, events, p, since, k);
    var j: nat :| since <= j <= k && Told(t, run, p, run(k).inFlight[p][0], j);
    assert RankAt(run, p.bridge, k + 1) == RankAt(run, p.bridge, since);
    NothingNew(t, run, events, p, k);
    SameRank(t, run, events, k, n, p.bridge);
    SameRank(t, run, events, j, n, u);
    UpdatesByRank(run(k).bridges[p.bridge], run(n).bridges[p.bridge], p.number, run(j).bridges[u], run(n).bridges[u]);
  }

  lemma WellFormedRun(t: Topology, run: nat -> Net, events: nat -> Event)
    requires IsRun(t, run, events)
    ensures WellFormed(t)
  {
  }

  /**
   On every fair run of a connected network there is a time from which on every bridge agrees that the least bridge
   is the root, knows its exact distance from it, and has its root port on a shortest path to it.
   */
  lemma Converges(t: Topology, run: nat -> Net, events: nat -> Event, m: nat) returns (since: nat)
    requires IsRun(t, run, events) && Fair(t, run, events) && Connected(t) && IsLeast(t, m)
    ensures forall n: nat :: n >= since ==> AllSettled(t, run(n), m)
  {
    hide IsRun, AllSettled, RankAt;
    since := AllConstant(t, run, events, t.ports.Keys);
    forall n: nat | n >= since
      ensures AllSettled(t, run(n), m)
    {
      SettledAt(t, run, events, m, since, n);
    }
  }

  lemma SettledAt(t: Topology, run: nat -> Net, events: nat -> Event, m: nat, since: nat, n: nat)
    requires IsRun(t, run, events) && Fair(t, run, events) && Connected(t) && IsLeast(t, m)
    requires n >= since && AllSettledFrom(t, run, since)
    ensures AllSettled(t, run(n), m)
  {
    hide IsRun, AllBacked, AllOrdered, Guided, Settled, RankAt, Updates, Announcement;
    RunInv(t, run, events, n);
    forall p | p in t.peer
      ensures !Updates(run(n).bridges[p.bridge], p.number, Announcement(run(n).bridges[t.peer[p].bridge]))
    {
      ConstantMeansNoNews(t, run, events, since, n, p);
    }
    assert Stable(t, run(n));
    StableIffSettled(t, run(n), m);
  }

  /** The least bridge never re-opens a port it has blocked, for it is never updated. */
  lemma LeastNeverReopens(t: Topology, n: Net, e: Event, m: nat, port: nat)
    requires Inv(t, n) && IsLeast(t, m) && Enabled(t, n, e) && port < |n.bridges[m].disabled|
    requires n.bridges[m].disabled[port]
    ensures m in Step(t, n, e).bridges && port < |Step(t, n, e).bridges[m].disabled|
    ensures Step(t, n, e).bridges[m].disabled[port]
  {
    hide AllBacked, AllOrdered, Guided, Updates, Flood;
    if e.Deliver? && e.to.bridge == m {
      SenderKnowsNoBetter(t, n, m, e.to);
    }
  }

  lemma SenderKnowsNoBetter(t: Topology, n: Net, m: nat, to: Port)
    requires Inv(t, n) && IsLeast(t, m) && to in t.peer && to.bridge == m && n.inFlight[to] != []
    ensures !Updates(n.bridges[m], to.number, n.inFlight[to][0])
  {
    hide Backed, AllOrdered, Guided;
    LeastIsItsOwnRoot(t, n, m);
    var msg := n.inFlight[to][0];
    BackedBySender(t, n, msg.root, msg.rootCost, t.peer[to].bridge);
    HeadCostSmall(t, n, to);
  }
}
