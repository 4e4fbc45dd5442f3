/**
 When an aborted search hides a success: exactly when some picks leave the last candidate of the next list dismissed
 and one of them could still have been moved on to a later candidate.
 */
module ReplayHidden {
  import opened Replay
  import opened ReplayDry
  import opened ReplayOrder
  import opened ReplaySpec

  /** After the picks `u` the next list's last candidate is dismissed, and pick `j` has a later candidate `c`. */
  ghost predicate StaleLater(lists: Lists, u: seq<nat>, j: nat, c: nat) {
    && Different(u, lists) && |u| < |lists| && lists[|u|] != [] && Taken(lists, u, |lists[|u|]| - 1)
    && j < |u| && u[j] < c < |lists[j]| && !Taken(lists, u[..j], c)
  }

  /** A search of the program aborts, although some picks would make it succeed. */
  ghost predicate HidesSuccess(p: Program, lists: Lists, n: nat, v: seq<nat>) {
    Fits(p, lists, 0) && CrashFree(p) && Aborts(p, lists, [], n) && Different(v, lists) && AllSucceed(p, v, 0)
  }

  /** The lure fails until its choices are `u`, and succeeds if one of them is moved on. */
  lemma {:induction false} LureSucceeds(u: seq<nat>, lists: Lists, j: nat, c: nat, v: seq<nat>, k: nat)
    requires |u| < |lists| && j < |u| && u[j] < c < |lists[j]| && Different(u, lists) && k <= j
    requires |v| == j + 1 && v[..j] == u[..j] && v[j] == c
    ensures AllSucceed(Lure(u, lists, k), v, k)
    decreases j - k
  {
    hide Taken;
    assert u[k] < |lists[k]|;
    if k < j {
      assert v[..j][k] == u[..j][k];
      LureSucceeds(u, lists, j, c, v, k + 1);
    }
  }

  lemma StaleHides(lists: Lists, u: seq<nat>, j: nat, c: nat) returns (n: nat, v: seq<nat>)
    requires AllNonempty(lists) && StaleLater(lists, u, j, c)
    ensures HidesSuccess(Lure(u, lists, 0), lists, n, v)
  {
    LureFits(u, lists, 0);
    n := LureAborts(u, lists, []);
    v := u[..j] + [c];
    assert Different(u[..j], lists) by {
      PrefixStaysDifferent(u, lists, j);
    }
    DifferentAppended(u[..j], c, lists);
    LureSucceeds(u, lists, j, c, v, 0);
  }

  lemma PrefixStaysDifferent(u: seq<nat>, lists: Lists, j: nat)
    requires Different(u, lists) && j <= |u|
    ensures Different(u[..j], lists)
  {
    hide Taken;
    var d := u[..j];
    forall k: nat | k < j
      ensures !Taken(lists, d[..k], d[k])
    {
      assert d[..k] == u[..k];
    }
  }

  /**
   A crash of a program that does not crash itself is at a choice whose list has run dry, on the way to which it
   asks.
   */
  lemma {:induction false} DryAt(p: Program, prefix: seq<bool>, choices: seq<nat>, lists: Lists, w: seq<nat>, i: nat)
    returns (d: nat)
    requires Fits(p, lists, i) && CrashFree(p) && Completes(choices, lists, w)
    requires IsPartial(choices, lists) && i <= |choices| && choices[..i] == w[..i]
    requires Run(p, prefix, choices, lists, i).outcome.Crashed?
    ensures i <= d < |lists| == |w| && w[d] == |lists[d]|
    ensures forall k: nat :: i <= k < d ==> w[k] < |lists[k]|
    ensures forall k: nat :: i <= k <= d ==> Asks(p, w[..k], i)
    decreases p
  {
    hide Completes, Taken, Free;
    CompletesIsPartial(choices, lists, w);
    match p
    case Branch(a, b) =>
      var outcome := prefix == [] || prefix[0];
      var rest := if prefix == [] then [] else prefix[1..];
      d := DryAt(if outcome then a else b, rest, choices, lists, w, i);
    case Choose(cs) =>
      PositionInList(choices, lists, i);
      RequestKeepsCompletion(choices, lists, w, i);
      var requested := Requested(choices, lists, i);
      if requested[i] == |cs| {
        d := i;
      } else {
        CompletesIsPartial(requested, lists, w);
        d := DryAt(cs[requested[i]], prefix, requested, lists, w, i + 1);
        forall k: nat | i + 1 <= k <= d
          ensures Asks(p, w[..k], i)
        {
          assert w[..k][i] == requested[i];
        }
      }
  }

  /** The picks before a list that runs dry differ, and dismiss its last candidate. */
  lemma DryIsStale(choices: seq<nat>, lists: Lists, w: seq<nat>, d: nat)
    requires Completes(choices, lists, w) && AllNonempty(lists) && d < |lists| == |w| && w[d] == |lists[d]|
    requires forall k: nat :: k < d ==> w[k] < |lists[k]|
    ensures Different(w[..d], lists) && Taken(lists, w[..d], |lists[d]| - 1)
  {
    var u := w[..d];
    assert From(choices, d) <= |lists[d]| - 1;
    assert w[d] == Free(lists, w[..d], From(choices, d));
    forall k: nat | k < d
      ensures !Taken(lists, u[..k], u[k])
    {
      assert u[..k] == w[..k];
      assert w[k] == Free(lists, w[..k], From(choices, k));
    }
  }

  /** What the search knows when it makes an attempt: nothing before it succeeds, and all its choices were asked for. */
  ghost predicate Attempting(p: Program, lists: Lists, choices: seq<nat>, w: seq<nat>) {
    Fits(p, lists, 0) && Completes(choices, lists, w) && NoneBefore([p], lists, w) && AllAsked([p], w, choices)
  }

  /**
   At a crash, picks that succeed differ from the ones made in one that was made before the dry list and is earlier.
   */
  lemma CrashHides(p: Program, lists: Lists, choices: seq<nat>, w: seq<nat>, v: seq<nat>)
    returns (u: seq<nat>, j: nat, c: nat)
    requires AllNonempty(lists) && CrashFree(p) && Attempting(p, lists, choices, w)
    requires IsPartial(choices, lists) && Run(p, [], choices, lists, 0).outcome.Crashed?
    requires Different(v, lists) && AllSucceed(p, v, 0)
    ensures StaleLater(lists, u, j, c)
  {
    hide Fits, Run, Completes, Taken;
    CompletesIsPartial(choices, lists, w);
    var d := DryAt(p, [], choices, lists, w, 0);
    DryIsStale(choices, lists, w, d);
    u := w[..d];
    assert AllStatesSucceed([p], v);
    assert !LexLess(v, w);
    j := DifferBefore(p, v, w, d, lists, choices);
    c := v[j];
    assert u[..j] == v[..j];
  }

  lemma DifferBefore(p: Program, v: seq<nat>, w: seq<nat>, d: nat, lists: Lists, choices: seq<nat>) returns (j: nat)
    requires Different(v, lists) && AllSucceed(p, v, 0) && !LexLess(v, w)
    requires d < |lists| == |w| && w[d] == |lists[d]|
    requires forall k: nat :: k <= d ==> Asks(p, w[..k], 0)
    ensures j < d && j < |v| && v[..j] == w[..j] && w[j] < v[j]
  {
    hide Taken;
    if |v| <= d && v == w[..|v|] {
      AsksThenFails(p, v, 0);
      assert false;
    }
    var k: nat :| k <= d && k < |v| && v[k] != w[k];
    j := Differ(v, w, k);
    assert v[..j] == w[..j];
  }

  /** A failed attempt leads to the next one. */
  lemma NextAttempt(p: Program, lists: Lists, choices: seq<nat>, w: seq<nat>) returns (next: seq<nat>, w': seq<nat>)
    requires AllNonempty(lists) && Attempting(p, lists, choices, w) && IsPartial(choices, lists)
    requires var t := Run(p, [], choices, lists, 0); t.outcome.Failed? && Next(t.choices, lists) != []
    ensures next == Next(Run(p, [], choices, lists, 0).choices, lists) && Attempting(p, lists, next, w')
  {
    hide Run, Fits, Completes, NoneBefore, AllAsked, AskedSince, FailsFrom, CanFollow, Remaining, TakesFirst, Next,
         IsPartial;
    var t := Run(p, [], choices, lists, 0);
    RemainingFromStart(p, w, 0);
    RunTakesFirst(p, [], choices, lists, w, 0);
    NothingListed(p, w, choices);
    RunAsksSince(p, [], choices, lists, w, |choices|);
    StillAsked([p], 0, w, choices, t.choices);
    FailedRunFails(p, [], choices, lists);
    CompletesIsPartial(t.choices, lists, w);
    NonePassedOver([p], 0, t.choices, lists, w);
    next := Next(t.choices, lists);
    w' := Complete(next, lists);
    NextAsked([p], lists, w, t.choices, next, w');
  }

  lemma {:induction false} AbortHides(p: Program, lists: Lists, choices: seq<nat>, w: seq<nat>, n: nat, v: seq<nat>)
    returns (u: seq<nat>, j: nat, c: nat)
    requires AllNonempty(lists) && CrashFree(p) && Attempting(p, lists, choices, w) && Aborts(p, lists, choices, n)
    requires Different(v, lists) && AllSucceed(p, v, 0)
    ensures StaleLater(lists, u, j, c)
    decreases n
  {
    hide Run, Fits, CrashFree, Different, AllSucceed, StaleLater, Completes, NoneBefore, AllAsked, Next, IsPartial;
    if n == 0 {
      u, j, c := CrashHides(p, lists, choices, w, v);
    } else {
      var next, w' := NextAttempt(p, lists, choices, w);
      u, j, c := AbortHides(p, lists, next, w', n - 1, v);
    }
  }

  lemma FirstAttempt(p: Program, lists: Lists)
    requires Fits(p, lists, 0)
    ensures IsPartial([], lists) && Attempting(p, lists, [], Complete([], lists))
  {
    NoneBeforeStart([p], lists);
  }

  /**
   An aborted search can hide a success if and only if, after some picks, the next list's last candidate is dismissed
   while one of the picks could still have been moved on.
   */
  lemma HidesSuccessIff(lists: Lists)
    requires AllNonempty(lists)
    ensures (exists p: Program, n: nat, v: seq<nat> :: HidesSuccess(p, lists, n, v)) <==>
            (exists u: seq<nat>, j: nat, c: nat :: StaleLater(lists, u, j, c))
  {
    if p: Program, n: nat, v: seq<nat> :| HidesSuccess(p, lists, n, v) {
      FirstAttempt(p, lists);
      var u, j, c := AbortHides(p, lists, [], Complete([], lists), n, v);
    }
    if u: seq<nat>, j: nat, c: nat :| StaleLater(lists, u, j, c) {
      var n, v := StaleHides(lists, u, j, c);
    }
  }

  /** A list can run dry without hiding any success: here the only pick before it could not be moved on. */
  lemma DryWithoutHiding(lists: Lists)
    requires |lists| == 2 && |lists[0]| == 1 && |lists[1]| > 0 && lists[1][|lists[1]| - 1] == lists[0][0]
    ensures AllNonempty(lists) && !LastIsFresh(lists)
    ensures !exists u: seq<nat>, j: nat, c: nat :: StaleLater(lists, u, j, c)
  {
    assert !FreshAt(lists, 1);
    forall u: seq<nat>, j: nat, c: nat
      ensures !StaleLater(lists, u, j, c)
    {
    }
  }
}
