/**
 Whether a network of bridges is free of forwarding loops: a flooded frame goes round a cycle of links exactly if no
 port on it is blocked, and if the least bridge is the first to announce no port ever is.
 */
module SpanningTreeLoops {
  import opened SpanningTree
  import opened SpanningTreeConvergence
  import opened SpanningTreeNet
  import opened SpanningTreePorts

  /** A cycle of links, by the ports through which it leaves each bridge; it comes in through another one. */
  ghost predicate IsCycle(t: Topology, out: seq<Port>) {
    && out != []
    && (forall i: nat :: i < |out| ==> out[i] in t.peer)
    && forall i: nat :: i < |out| ==> Joins(t, out[i], After(out, i))
  }

  function After(out: seq<Port>, i: nat): Port
    requires i < |out|
  {
    if i + 1 < |out| then out[i + 1] else out[0]
  }

  /** What leaves through port `p` comes to the bridge of port `q`, by another port. */
  ghost predicate Joins(t: Topology, p: Port, q: Port) {
    p in t.peer && t.peer[p].bridge == q.bridge && t.peer[p] != q
  }

  /** A frame that came in on port `at`, for an unknown destination, is flooded out on port `q`. */
  ghost predicate FloodsOut(n: Net, at: Port, q: Port) {
    q.bridge == at.bridge && q != at && !IsBlocked(n, q)
  }

  /** Wherever on the cycle a flooded frame comes in, it is passed on along the cycle. */
  ghost predicate GoesRound(t: Topology, n: Net, out: seq<Port>)
    requires IsCycle(t, out)
  {
    forall i: nat :: i < |out| ==> FloodsOut(n, t.peer[out[i]], After(out, i))
  }

  lemma GoesRoundIfOpen(t: Topology, n: Net, out: seq<Port>)
    requires IsCycle(t, out)
    ensures GoesRound(t, n, out) <==> forall i: nat :: i < |out| ==> !IsBlocked(n, out[i])
  {
    hide IsBlocked;
    if GoesRound(t, n, out) {
      forall i: nat | i < |out|
        ensures !IsBlocked(n, out[i])
      {
        var before := if i > 0 then i - 1 else |out| - 1;
        assert After(out, before) == out[i];
        assert FloodsOut(n, t.peer[out[before]], After(out, before));
      }
    } else {
      var i: nat :| i < |out| && !FloodsOut(n, t.peer[out[i]], After(out, i));
      assert Joins(t, out[i], After(out, i));
      var next := if i + 1 < |out| then i + 1 else 0;
      assert After(out, i) == out[next];
    }
  }

  /**
   On any run of the network flooded frames go round a cycle of links at a given time if and only if, for every port
   through which the cycle leaves a bridge, each larger root that ever came in on it was followed by an update.
   */
  lemma GoesRoundIff(t: Topology, run: nat -> Net, events: nat -> Event, k: nat, out: seq<Port>)
    requires IsRun(t, run, events) && IsCycle(t, out)
    ensures GoesRound(t, run(k), out) <==>
              forall i: nat :: i < |out| ==> !exists j: nat :: BlockedSince(run, events, j, k, out[i])
  {
    hide IsBlocked, BlockedSince, Initial, StepAt;
    GoesRoundIfOpen(t, run(k), out);
    forall i: nat | i < |out|
      ensures IsBlocked(run(k), out[i]) <==> exists j: nat :: BlockedSince(run, events, j, k, out[i])
    {
      BlockedIff(t, run, events, k, out[i]);
    }
  }

  /** Where copies of a flooded frame come in next. */
  ghost function Copies(t: Topology, n: Net, at: set<Port>): set<Port> {
    set p | p in t.peer && t.peer[p] in t.peer && exists q :: q in at && FloodsOut(n, q, t.peer[p])
  }

  /** Where they come in after `m` hops, the network making a step at each. */
  ghost function CopiesAfter(t: Topology, run: nat -> Net, k: nat, at: set<Port>, m: nat): set<Port> {
    if m == 0 then at else Copies(t, run(k + m - 1), CopiesAfter(t, run, k, at, m - 1))
  }

  /** If a cycle is open at all times, a frame flooded into it never dies out. */
  lemma {:induction false} NeverDiesOut(t: Topology, run: nat -> Net, k: nat, out: seq<Port>, m: nat) returns (i: nat)
    requires WellFormed(t) && IsCycle(t, out) && forall n: nat :: n >= k ==> GoesRound(t, run(n), out)
    ensures i < |out| && t.peer[out[i]] in CopiesAfter(t, run, k, {t.peer[out[0]]}, m)
  {
    if m == 0 {
      i := 0;
    } else {
      var j := NeverDiesOut(t, run, k, out, m - 1);
      i := if j + 1 < |out| then j + 1 else 0;
      assert After(out, j) == out[i];
      assert GoesRound(t, run(k + m - 1), out);
      assert FloodsOut(run(k + m - 1), t.peer[out[j]], out[i]);
    }
  }

  /** Bridges announce only once they follow the least one. */
  ghost predicate LeastFirst(t: Topology, run: nat -> Net, events: nat -> Event, m: nat) {
    forall k: nat :: events(k).Announce? ==>
      events(k).bridge in run(k).bridges && run(k).bridges[events(k).bridge].root == m
  }

  ghost predicate OnlyLeastInFlight(n: Net, m: nat) {
    forall p, i: nat :: p in n.inFlight && i < |n.inFlight[p]| ==> n.inFlight[p][i].root == m
  }

  lemma StepOnlyLeast(t: Topology, n: Net, e: Event, m: nat)
    requires Inv(t, n) && Enabled(t, n, e) && OnlyLeastInFlight(n, m)
    requires e.Announce? ==> n.bridges[e.bridge].root == m
    ensures OnlyLeastInFlight(Step(t, n, e), m)
  {
    hide AllBacked, AllOrdered, Guided, Flood;
    var n' := Step(t, n, e);
    match e
    case Announce(b, device, _) => FloodOnlyLeast(t, n.inFlight, b, device, Announcement(n.bridges[b]), m);
    case Deliver(to) =>
      var rest := n.inFlight[to := n.inFlight[to][1..]];
      assert n.inFlight[to][0].root == m;
      FloodOnlyLeast(t, rest, to.bridge, to.number, Announcement(n'.bridges[to.bridge]), m);
    case Lose(_, _) =>
  }

  lemma FloodOnlyLeast(t: Topology, inFlight: map<Port, seq<Bpdu>>, b: nat, except: nat, msg: Bpdu, m: nat)
    requires forall p, i: nat :: p in inFlight && i < |inFlight[p]| ==> inFlight[p][i].root == m
    ensures msg.root == m ==> OnlyLeastInFlight(Net(map[], Flood(t, inFlight, b, except, msg)), m)
  {
  }

  lemma InitialOnlyLeast(t: Topology, n: Net, m: nat)
    requires Initial(t, n)
    ensures OnlyLeastInFlight(n, m)
  {
  }

  lemma StartsInitial(t: Topology, run: nat -> Net, events: nat -> Event)
    requires IsRun(t, run, events)
    ensures Initial(t, run(0))
  {
    hide StepAt, Initial;
  }

  lemma LeastAnnounced(t: Topology, run: nat -> Net, events: nat -> Event, m: nat, k: nat)
    requires LeastFirst(t, run, events, m) && events(k).Announce?
    ensures events(k).bridge in run(k).bridges && run(k).bridges[events(k).bridge].root == m
  {
  }

  lemma {:induction false} RunOnlyLeast(t: Topology, run: nat -> Net, events: nat -> Event, m: nat, k: nat)
    requires IsRun(t, run, events) && LeastFirst(t, run, events, m)
    ensures OnlyLeastInFlight(run(k), m)
  {
    hide Step, Inv, IsRun, LeastFirst, OnlyLeastInFlight, Initial;
    if k == 0 {
      StartsInitial(t, run, events);
      InitialOnlyLeast(t, run(0), m);
    } else {
      var n, e := run(k - 1), events(k - 1);
      RunOnlyLeast(t, run, events, m, k - 1);
      RunInv(t, run, events, k - 1);
      StepsOf(t, run, events, k - 1);
      if e.Announce? {
        LeastAnnounced(t, run, events, m, k - 1);
      }
      StepOnlyLeast(t, n, e, m);
    }
  }

  lemma RootAtLeast(t: Topology, n: Net, m: nat, b: nat)
    requires Inv(t, n) && IsLeast(t, m) && b in t.ports
    ensures n.bridges[b].root >= m
  {
    hide Backed, AllOrdered, Guided;
    BackedBySender(t, n, n.bridges[b].root, n.bridges[b].rootCost, b);
  }

  /** If bridges announce only once they follow the least one, no port is ever blocked, in a network of any shape. */
  lemma LeastFirstBlocksNothing(t: Topology, run: nat -> Net, events: nat -> Event, m: nat, k: nat, p: Port)
    requires IsRun(t, run, events) && LeastFirst(t, run, events, m) && IsLeast(t, m)
    requires p.bridge in t.ports && p.number < t.ports[p.bridge]
    ensures !IsBlocked(run(k), p)
  {
    hide IsRun, LeastFirst, Inv, Opens, IsBlocked;
    BlockedIff(t, run, events, k, p);
    forall j: nat
      ensures !Blocks(run, events, j, p)
    {
      RunOnlyLeast(t, run, events, m, j);
      RunInv(t, run, events, j);
      RootAtLeast(t, run(j), m, p.bridge);
      assert Arrives(run, events, j, p) ==> run(j).inFlight[p][0].root == m;
    }
  }

  /** So then floods go round every cycle at all times, settled or not. */
  lemma LeastFirstLoops(t: Topology, run: nat -> Net, events: nat -> Event, m: nat, k: nat, out: seq<Port>)
    requires IsRun(t, run, events) && LeastFirst(t, run, events, m) && IsLeast(t, m) && IsCycle(t, out)
    ensures GoesRound(t, run(k), out)
  {
    hide IsBlocked, LeastFirst, StepAt, Initial;
    GoesRoundIfOpen(t, run(k), out);
    forall i: nat | i < |out|
      ensures !IsBlocked(run(k), out[i])
    {
      LeastFirstBlocksNothing(t, run, events, m, k, out[i]);
    }
  }
}
