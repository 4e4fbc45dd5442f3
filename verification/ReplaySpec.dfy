/**
 Exhaustive exploration by re-execution. A program is re-run with a recorded prefix of branch outcomes, and with
 the recorded choices; past the prefix it takes the true branch, and past the choices the first candidate that no
 earlier choice has picked.
 */
module ReplaySpec {
  import opened ReplayOrder

  /**
   What a program does: only conditions that can go both ways count as branches. After a failure other choices may
   be tried; a crash ends the search.
   */
  datatype Program =
    | Succeed
    | Fail
    | Crash
    | Branch(ifTrue: Program, ifFalse: Program)
    | Choose(candidates: seq<Program>)

  /** Every request for choice `i` offers the candidates of list `i`, on every path. */
  ghost predicate Fits(p: Program, lists: Lists, i: nat) {
    match p
    case Succeed => true
    case Fail => true
    case Crash => true
    case Branch(a, b) => Fits(a, lists, i) && Fits(b, lists, i)
    case Choose(cs) =>
      i < |lists| && |cs| == |lists[i]| && forall c: nat :: c < |cs| ==> Fits(cs[c], lists, i + 1)
  }

  datatype Outcome = Succeeded | Failed | Crashed

  /** What one execution leaves behind: the branches it took, the choices requested so far, and how it ended. */
  datatype Trace = Trace(branches: seq<bool>, choices: seq<nat>, outcome: Outcome)

  /** One execution; `i` choices have been requested before. It crashes when it runs out of candidates. */
  function Run(p: Program, prefix: seq<bool>, choices: seq<nat>, lists: Lists, i: nat): (t: Trace)
    requires Fits(p, lists, i) && IsPartial(choices, lists) && i <= |choices|
    ensures IsPartial(t.choices, lists) && Grows(choices, t.choices) && t.choices[..i] == choices[..i]
    decreases p
  {
    match p
    case Succeed => Trace([], choices, Succeeded)
    case Fail => Trace([], choices, Failed)
    case Crash => Trace([], choices, Crashed)
    case Branch(a, b) =>
      var outcome := prefix == [] || prefix[0];
      var t := Run(if outcome then a else b, if prefix == [] then [] else prefix[1..], choices, lists, i);
      t.(branches := [outcome] + t.branches)
    case Choose(cs) =>
      var requested := Requested(choices, lists, i);
      if requested[i] == |cs| then Trace([], choices, Crashed)
      else
        var t := Run(cs[requested[i]], prefix, requested, lists, i + 1);
        assert t.choices[..i] == t.choices[..i + 1][..i];
        t
  }

  ghost function Prefixed(outcome: bool, paths: seq<seq<bool>>): (r: seq<seq<bool>>)
    ensures |r| == |paths| && forall k: nat :: k < |paths| ==> r[k] == [outcome] + paths[k]
  {
    seq(|paths|, k requires 0 <= k < |paths| => [outcome] + paths[k])
  }

  ghost predicate CanPick(cs: seq<Program>, w: seq<nat>, i: nat) {
    i < |w| && w[i] < |cs|
  }

  /** All paths of a program under a vector of picks, depth first, true branches first. */
  ghost function Paths(p: Program, w: seq<nat>, i: nat): (r: seq<seq<bool>>)
    ensures |r| > 0
    decreases p
  {
    match p
    case Branch(a, b) => Prefixed(true, Paths(a, w, i)) + Prefixed(false, Paths(b, w, i))
    case Choose(cs) => if CanPick(cs, w, i) then Paths(cs[w[i]], w, i + 1) else [[]]
    case _ => [[]]
  }

  /** All paths succeed under a vector of picks. */
  ghost predicate AllSucceed(p: Program, w: seq<nat>, i: nat)
    decreases p
  {
    match p
    case Succeed => true
    case Fail => false
    case Crash => false
    case Branch(a, b) => AllSucceed(a, w, i) && AllSucceed(b, w, i)
    case Choose(cs) => CanPick(cs, w, i) && AllSucceed(cs[w[i]], w, i + 1)
  }

  /** A prefix of branch outcomes that the program can follow. */
  ghost predicate CanFollow(p: Program, w: seq<nat>, i: nat, prefix: seq<bool>)
    decreases p
  {
    match p
    case Branch(a, b) => prefix == [] || CanFollow(if prefix[0] then a else b, w, i, prefix[1..])
    case Choose(cs) => if CanPick(cs, w, i) then CanFollow(cs[w[i]], w, i + 1, prefix) else prefix == []
    case _ => prefix == []
  }

  /** The paths from the first one with the given prefix on. */
  ghost function Remaining(p: Program, w: seq<nat>, i: nat, prefix: seq<bool>): (r: seq<seq<bool>>)
    requires CanFollow(p, w, i, prefix)
    ensures |r| > 0
    decreases p
  {
    match p
    case Branch(a, b) =>
      if prefix == [] then Paths(p, w, i)
      else if prefix[0] then Prefixed(true, Remaining(a, w, i, prefix[1..])) + Prefixed(false, Paths(b, w, i))
      else Prefixed(false, Remaining(b, w, i, prefix[1..]))
    case Choose(cs) => if CanPick(cs, w, i) then Remaining(cs[w[i]], w, i + 1, prefix) else [[]]
    case _ => [[]]
  }

  /** Whether a path succeeds. */
  ghost predicate Succeeds(p: Program, w: seq<nat>, i: nat, path: seq<bool>)
    decreases p
  {
    match p
    case Succeed => true
    case Fail => false
    case Crash => false
    case Branch(a, b) => path == [] || Succeeds(if path[0] then a else b, w, i, path[1..])
    case Choose(cs) => CanPick(cs, w, i) && Succeeds(cs[w[i]], w, i + 1, path)
  }

  lemma {:induction false} RemainingFromStart(p: Program, w: seq<nat>, i: nat)
    ensures CanFollow(p, w, i, []) && Remaining(p, w, i, []) == Paths(p, w, i)
    decreases p
  {
    if p.Choose? && CanPick(p.candidates, w, i) {
      RemainingFromStart(p.candidates[w[i]], w, i + 1);
    }
  }

  /** An execution takes the first remaining path under the picks that running on leads to. */
  ghost predicate TakesFirst(p: Program, w: seq<nat>, i: nat, prefix: seq<bool>, t: Trace)
    requires CanFollow(p, w, i, prefix)
  {
    && CanFollow(p, w, i, t.branches)
    && Remaining(p, w, i, t.branches) == Remaining(p, w, i, prefix)
    && Remaining(p, w, i, prefix)[0] == t.branches
    && t.outcome.Succeeded? == Succeeds(p, w, i, t.branches)
  }

  lemma PositionInList(choices: seq<nat>, lists: Lists, i: nat)
    requires IsPartial(choices, lists)
    ensures |choices| <= |lists| && (i < |choices| ==> choices[i] < |lists[i]|)
  {
  }

  lemma CompletesIsPartial(choices: seq<nat>, lists: Lists, w: seq<nat>)
    requires Completes(choices, lists, w)
    ensures IsPartial(choices, lists) && |choices| <= |w| == |lists|
  {
  }

  lemma {:induction false} RunTakesFirst(p: Program, prefix: seq<bool>, choices: seq<nat>, lists: Lists, w: seq<nat>,
                                         i: nat)
    requires Fits(p, lists, i) && Completes(choices, lists, w) && i <= |choices| && choices[..i] == w[..i]
    requires CanFollow(p, w, i, prefix)
    ensures var t := Run(p, prefix, choices, lists, i);
            Completes(t.choices, lists, w) && TakesFirst(p, w, i, prefix, t)
    decreases p
  {
    hide Completes, IsPartial, Taken, Free;
    CompletesIsPartial(choices, lists, w);
    match p
    case Succeed =>
    case Fail =>
    case Crash =>
    case Branch(a, b) =>
      var outcome := prefix == [] || prefix[0];
      var rest := if prefix == [] then [] else prefix[1..];
      var next := if outcome then a else b;
      if prefix == [] {
        RemainingFromStart(a, w, i);
      }
      RunTakesFirst(next, rest, choices, lists, w, i);
      BranchTakesFirst(a, b, w, i, prefix, Run(next, rest, choices, lists, i));
    case Choose(cs) =>
      PositionInList(choices, lists, i);
      RequestKeepsCompletion(choices, lists, w, i);
      var requested := Requested(choices, lists, i);
      if requested[i] < |cs| {
        CompletesIsPartial(requested, lists, w);
        RunTakesFirst(cs[requested[i]], prefix, requested, lists, w, i + 1);
        assert w[i] == requested[i];
      }
  }

  lemma BranchTakesFirst(a: Program, b: Program, w: seq<nat>, i: nat, prefix: seq<bool>, t: Trace)
    requires CanFollow(Branch(a, b), w, i, prefix)
    requires var next, rest := if prefix == [] || prefix[0] then a else b, if prefix == [] then [] else prefix[1..];
             CanFollow(next, w, i, rest) && TakesFirst(next, w, i, rest, t)
    requires prefix == [] ==> Remaining(a, w, i, []) == Paths(a, w, i)
    ensures TakesFirst(Branch(a, b), w, i, prefix, t.(branches := [prefix == [] || prefix[0]] + t.branches))
  {
    assert ([prefix == [] || prefix[0]] + t.branches)[1..] == t.branches;
  }

  /** A path without the false branches at its end. */
  function Stripped(path: seq<bool>): (r: seq<bool>)
    ensures r <= path && (r != [] ==> r[|r| - 1])
  {
    if path != [] && !path[|path| - 1] then Stripped(path[..|path| - 1]) else path
  }

  lemma {:induction false} StrippedCons(outcome: bool, path: seq<bool>)
    ensures Stripped([outcome] + path) ==
              if Stripped(path) != [] then [outcome] + Stripped(path) else if outcome then [true] else []
    decreases |path|
  {
    var whole := [outcome] + path;
    if path == [] {
      assert whole[..0] == [];
    } else if !path[|path| - 1] {
      assert whole[..|whole| - 1] == [outcome] + path[..|path| - 1];
      StrippedCons(outcome, path[..|path| - 1]);
    }
  }

  /** The prefix to try after a path: its last true branch flipped. */
  function Flipped(path: seq<bool>): seq<bool>
    requires path != []
  {
    path[..|path| - 1] + [false]
  }

  /** After a path, the paths that remain are the path itself and those from its last true branch flipped. */
  ghost predicate FlipsOn(p: Program, w: seq<nat>, i: nat, path: seq<bool>)
    requires CanFollow(p, w, i, path)
  {
    var s := Stripped(path);
    if s == [] then Remaining(p, w, i, path) == [path]
    else CanFollow(p, w, i, Flipped(s)) && Remaining(p, w, i, path) == [path] + Remaining(p, w, i, Flipped(s))
  }

  ghost predicate IsFirst(p: Program, w: seq<nat>, i: nat, path: seq<bool>) {
    CanFollow(p, w, i, path) && Remaining(p, w, i, path)[0] == path
  }

  lemma {:induction false} FlipContinues(p: Program, w: seq<nat>, i: nat, path: seq<bool>)
    requires IsFirst(p, w, i, path)
    ensures FlipsOn(p, w, i, path)
    decreases p
  {
    match p
    case Choose(cs) =>
      if CanPick(cs, w, i) {
        FlipContinues(cs[w[i]], w, i + 1, path);
      }
    case Branch(a, b) =>
      assert path != [];
      var next, rest := if path[0] then a else b, path[1..];
      FirstInside(a, b, w, i, path);
      FlipContinues(next, w, i, rest);
      StrippedCons(path[0], rest);
      assert path == [path[0]] + rest;
      if Stripped(rest) != [] {
        FlipInside(a, b, w, i, path);
      } else {
        FlipAcross(a, b, w, i, path);
      }
    case _ =>
  }

  /** The first path remaining in a branch is the first one remaining on the side taken. */
  lemma FirstInside(a: Program, b: Program, w: seq<nat>, i: nat, path: seq<bool>)
    requires IsFirst(Branch(a, b), w, i, path) && path != []
    ensures IsFirst(if path[0] then a else b, w, i, path[1..])
  {
    var next, rest := if path[0] then a else b, path[1..];
    var first := Remaining(next, w, i, rest)[0];
    assert ([path[0]] + first)[1..] == first;
  }

  /** The paths that remain on the side taken come first, then those of the other side if it is still to be taken. */
  lemma RemainingInside(a: Program, b: Program, w: seq<nat>, i: nat, outcome: bool, rest: seq<bool>)
    requires CanFollow(if outcome then a else b, w, i, rest)
    ensures CanFollow(Branch(a, b), w, i, [outcome] + rest)
    ensures Remaining(Branch(a, b), w, i, [outcome] + rest)
         == Prefixed(outcome, Remaining(if outcome then a else b, w, i, rest))
            + if outcome then Prefixed(false, Paths(b, w, i)) else []
  {
    assert ([outcome] + rest)[1..] == rest;
  }

  /** A flip on the side taken leaves the other side alone. */
  lemma FlipInside(a: Program, b: Program, w: seq<nat>, i: nat, path: seq<bool>)
    requires CanFollow(Branch(a, b), w, i, path) && path != []
    requires var next, rest := if path[0] then a else b, path[1..];
             && CanFollow(next, w, i, rest) && Stripped(rest) != [] && FlipsOn(next, w, i, rest)
             && Stripped(path) == [path[0]] + Stripped(rest)
    ensures FlipsOn(Branch(a, b), w, i, path)
  {
    hide Paths, Stripped, Flipped, CanFollow, Remaining;
    var next, rest := if path[0] then a else b, path[1..];
    var t := Stripped(rest);
    assert path == [path[0]] + rest;
    FlippedCons(path[0], t);
    RemainingInside(a, b, w, i, path[0], rest);
    RemainingInside(a, b, w, i, path[0], Flipped(t));
    PrefixedCons(path[0], rest, Remaining(next, w, i, Flipped(t)));
  }

  /** With nothing to flip on the true side, the false side comes next; after the false side, nothing does. */
  lemma FlipAcross(a: Program, b: Program, w: seq<nat>, i: nat, path: seq<bool>)
    requires CanFollow(Branch(a, b), w, i, path) && path != []
    requires var next, rest := if path[0] then a else b, path[1..];
             && CanFollow(next, w, i, rest) && Remaining(next, w, i, rest) == [rest]
             && Stripped(path) == if path[0] then [true] else []
    ensures FlipsOn(Branch(a, b), w, i, path)
  {
    hide Stripped, Flipped;
    var rest := path[1..];
    assert path == [path[0]] + rest;
    PrefixedCons(path[0], rest, []);
    if path[0] {
      FlippedTrue();
      RemainingFromStart(b, w, i);
      assert Remaining(Branch(a, b), w, i, [false]) == Prefixed(false, Paths(b, w, i));
    }
  }

  lemma FlippedCons(outcome: bool, t: seq<bool>)
    requires t != []
    ensures Flipped([outcome] + t) == [outcome] + Flipped(t)
    ensures Flipped([outcome] + t)[1..] == Flipped(t)
  {
    assert Flipped([outcome] + t) == [outcome] + Flipped(t);
  }

  lemma FlippedTrue()
    ensures Flipped([true]) == [false] && [false][1..] == []
  {
    assert [true][..0] + [false] == [false];
  }

  lemma PrefixedCons(outcome: bool, path: seq<bool>, paths: seq<seq<bool>>)
    ensures Prefixed(outcome, [path] + paths) == [[outcome] + path] + Prefixed(outcome, paths)
    ensures Prefixed(outcome, [path]) == [[outcome] + path]
  {
  }

  /** A failure depends only on the choices requested up to it: it recurs under every vector that begins with them. */
  lemma {:induction false} FailureIsLocal(p: Program, prefix: seq<bool>, choices: seq<nat>, lists: Lists,
                                          v: seq<nat>, i: nat)
    requires Fits(p, lists, i) && IsPartial(choices, lists) && i <= |choices|
    requires var t := Run(p, prefix, choices, lists, i); t.outcome.Failed? && t.choices <= v
    ensures !AllSucceed(p, v, i)
    decreases p
  {
    match p
    case Fail =>
    case Branch(a, b) =>
      var outcome := prefix == [] || prefix[0];
      FailureIsLocal(if outcome then a else b, if prefix == [] then [] else prefix[1..], choices, lists, v, i);
    case Choose(cs) =>
      var requested := Requested(choices, lists, i);
      var t := Run(cs[requested[i]], prefix, requested, lists, i + 1);
      assert t.choices[i] == t.choices[..i + 1][i] == requested[i];
      FailureIsLocal(cs[requested[i]], prefix, requested, lists, v, i + 1);
  }

  /** If every path succeeds one by one, the program succeeds. */
  lemma {:induction false} EachPathThenAll(p: Program, w: seq<nat>, i: nat)
    requires forall k: nat :: k < |Paths(p, w, i)| ==> Succeeds(p, w, i, Paths(p, w, i)[k])
    ensures AllSucceed(p, w, i)
    decreases p
  {
    var paths := Paths(p, w, i);
    assert Succeeds(p, w, i, paths[0]);
    match p
    case Choose(cs) => EachPathThenAll(cs[w[i]], w, i + 1);
    case Branch(a, b) =>
      var left, right := Paths(a, w, i), Paths(b, w, i);
      forall k: nat | k < |left|
        ensures Succeeds(a, w, i, left[k])
      {
        assert paths[k] == [true] + left[k] && paths[k][1..] == left[k];
      }
      forall k: nat | k < |right|
        ensures Succeeds(b, w, i, right[k])
      {
        assert paths[|left| + k] == [false] + right[k] && paths[|left| + k][1..] == right[k];
      }
      EachPathThenAll(a, w, i);
      EachPathThenAll(b, w, i);
    case _ =>
  }

  ghost predicate DistinctPaths(paths: seq<seq<bool>>) {
    forall k: nat, l: nat :: k < l < |paths| ==> paths[k] != paths[l]
  }

  /** No path is listed twice. */
  lemma {:induction false} PathsDistinct(p: Program, w: seq<nat>, i: nat)
    ensures DistinctPaths(Paths(p, w, i))
    decreases p
  {
    match p
    case Choose(cs) =>
      if CanPick(cs, w, i) {
        PathsDistinct(cs[w[i]], w, i + 1);
      }
    case Branch(a, b) =>
      PathsDistinct(a, w, i);
      PathsDistinct(b, w, i);
      DistinctSides(Paths(a, w, i), Paths(b, w, i));
    case _ =>
  }

  lemma DistinctSides(left: seq<seq<bool>>, right: seq<seq<bool>>)
    requires DistinctPaths(left) && DistinctPaths(right)
    ensures DistinctPaths(Prefixed(true, left) + Prefixed(false, right))
  {
    var paths := Prefixed(true, left) + Prefixed(false, right);
    forall k: nat, l: nat | k < l < |paths|
      ensures paths[k] != paths[l]
    {
      var x := if k < |left| then left[k] else right[k - |left|];
      var y := if l < |left| then left[l] else right[l - |left|];
      var p, q := [k < |left|] + x, [l < |left|] + y;
      assert paths[k] == p && paths[l] == q;
      assert p[0] == (k < |left|) && q[0] == (l < |left|) && p[1..] == x && q[1..] == y;
    }
  }

  /** No run crashes by itself. */
  ghost predicate CrashFree(p: Program) {
    match p
    case Crash => false
    case Branch(a, b) => CrashFree(a) && CrashFree(b)
    case Choose(cs) => forall c: nat :: c < |cs| ==> CrashFree(cs[c])
    case _ => true
  }

  /** The last candidate of a list is never one that earlier choices can have picked. */
  ghost predicate NeverDry(lists: Lists) {
    forall u :: Different(u, lists) && |u| < |lists| ==> lists[|u|] != [] && !Taken(lists, u, |lists[|u|]| - 1)
  }

  lemma {:induction false} RunNeverCrashes(p: Program, prefix: seq<bool>, choices: seq<nat>, lists: Lists, i: nat)
    requires Fits(p, lists, i) && CrashFree(p) && NeverDry(lists)
    requires IsPartial(choices, lists) && i <= |choices| && Different(choices[..i], lists)
    ensures !Run(p, prefix, choices, lists, i).outcome.Crashed?
    decreases p
  {
    match p
    case Branch(a, b) =>
      var outcome := prefix == [] || prefix[0];
      RunNeverCrashes(if outcome then a else b, if prefix == [] then [] else prefix[1..], choices, lists, i);
    case Choose(cs) =>
      RequestStaysDifferent(choices, lists, i);
      var requested := Requested(choices, lists, i);
      RunNeverCrashes(cs[requested[i]], prefix, requested, lists, i + 1);
    case _ =>
  }

  lemma RequestStaysDifferent(choices: seq<nat>, lists: Lists, i: nat)
    requires IsPartial(choices, lists) && i <= |choices| && i < |lists|
    requires Different(choices[..i], lists) && NeverDry(lists)
    ensures var r := Requested(choices, lists, i);
            r[i] < |lists[i]| && IsPartial(r, lists) && Different(r[..i + 1], lists)
  {
    hide Taken, Different, IsPartial;
    PositionInList(choices, lists, i);
    var r, u := Requested(choices, lists, i), choices[..i];
    NotDry(lists, u);
    RequestedIsPartial(choices, lists, i);
    assert r[..i + 1] == u + [r[i]];
    DifferentAppended(u, r[i], lists);
  }

  lemma NotDry(lists: Lists, u: seq<nat>)
    requires NeverDry(lists) && Different(u, lists) && |u| < |lists|
    ensures lists[|u|] != [] && !Taken(lists, u, |lists[|u|]| - 1)
  {
  }

  lemma RequestedIsPartial(choices: seq<nat>, lists: Lists, i: nat)
    requires IsPartial(choices, lists) && i <= |choices| && i < |lists|
    requires Requested(choices, lists, i)[i] < |lists[i]|
    ensures IsPartial(Requested(choices, lists, i), lists)
  {
    hide Taken, Free;
  }

  lemma DifferentAppended(u: seq<nat>, c: nat, lists: Lists)
    requires Different(u, lists) && |u| < |lists| && c < |lists[|u|]| && !Taken(lists, u, c)
    ensures Different(u + [c], lists)
  {
    hide Taken;
    var d := u + [c];
    forall k: nat | k < |d|
      ensures d[k] < |lists[k]| && !Taken(lists, d[..k], d[k])
    {
      assert d[..k] == u[..k];
      assert u[..|u|] == u;
    }
  }

  /** After the picks `u`, the program can request another one. */
  ghost predicate Asks(p: Program, u: seq<nat>, i: nat)
    decreases p
  {
    match p
    case Branch(a, b) => Asks(a, u, i) || Asks(b, u, i)
    case Choose(cs) => i == |u| || (CanPick(cs, u, i) && Asks(cs[u[i]], u, i + 1))
    case _ => false
  }

  /** A path requests choice `j`. */
  ghost predicate AsksOn(p: Program, w: seq<nat>, i: nat, j: nat, path: seq<bool>)
    decreases p
  {
    match p
    case Branch(a, b) => path != [] && AsksOn(if path[0] then a else b, w, i, j, path[1..])
    case Choose(cs) => i == j || (CanPick(cs, w, i) && AsksOn(cs[w[i]], w, i + 1, j, path))
    case _ => false
  }

  lemma {:induction false} AsksOnSomePath(p: Program, w: seq<nat>, i: nat, j: nat) returns (k: nat)
    requires i <= j < |w| && Asks(p, w[..j], i)
    ensures k < |Paths(p, w, i)| && AsksOn(p, w, i, j, Paths(p, w, i)[k])
    decreases p
  {
    match p
    case Branch(a, b) =>
      if Asks(a, w[..j], i) {
        k := AsksOnSomePath(a, w, i, j);
        assert ([true] + Paths(a, w, i)[k])[1..] == Paths(a, w, i)[k];
      } else {
        k := AsksOnSomePath(b, w, i, j);
        assert ([false] + Paths(b, w, i)[k])[1..] == Paths(b, w, i)[k];
        k := |Paths(a, w, i)| + k;
      }
    case Choose(cs) =>
      if i < j {
        k := AsksOnSomePath(cs[w[i]], w, i + 1, j);
      } else {
        k := 0;
      }
  }

  /** Choices are added only when the program requests them. */
  lemma {:induction false} RunAddsWhatItAsks(p: Program, prefix: seq<bool>, choices: seq<nat>, lists: Lists, i: nat,
                                             j: nat)
    requires Fits(p, lists, i) && IsPartial(choices, lists) && i <= |choices| <= j
    ensures var t := Run(p, prefix, choices, lists, i); j < |t.choices| ==> Asks(p, t.choices[..j], i)
    decreases p
  {
    match p
    case Branch(a, b) =>
      var outcome := prefix == [] || prefix[0];
      RunAddsWhatItAsks(if outcome then a else b, if prefix == [] then [] else prefix[1..], choices, lists, i, j);
    case Choose(cs) =>
      var requested := Requested(choices, lists, i);
      if requested[i] < |cs| && i < j {
        RunAddsWhatItAsks(cs[requested[i]], prefix, requested, lists, i + 1, j);
        var t := Run(cs[requested[i]], prefix, requested, lists, i + 1);
        assert t.choices[..i + 1][i] == requested[i];
      }
    case _ =>
  }

  /** A choice has reached its final pick. */
  ghost predicate SettledAt(choices: seq<nat>, w: seq<nat>, j: nat) {
    j < |choices| && j < |w| && choices[j] == w[j]
  }

  /** A successful run settles the choices it requests. */
  lemma {:induction false} RunSettles(p: Program, prefix: seq<bool>, choices: seq<nat>, lists: Lists, w: seq<nat>,
                                      i: nat, j: nat)
    requires Fits(p, lists, i) && Completes(choices, lists, w) && i <= |choices| && choices[..i] == w[..i] && i <= j
    requires var t := Run(p, prefix, choices, lists, i); t.outcome.Succeeded? && AsksOn(p, w, i, j, t.branches)
    ensures SettledAt(Run(p, prefix, choices, lists, i).choices, w, j)
    decreases p
  {
    match p
    case Branch(a, b) =>
      var outcome := prefix == [] || prefix[0];
      var next, rest := if outcome then a else b, if prefix == [] then [] else prefix[1..];
      var t := Run(next, rest, choices, lists, i);
      assert ([outcome] + t.branches)[1..] == t.branches;
      RunSettles(next, rest, choices, lists, w, i, j);
    case Choose(cs) =>
      RequestKeepsCompletion(choices, lists, w, i);
      var requested := Requested(choices, lists, i);
      var t := Run(cs[requested[i]], prefix, requested, lists, i + 1);
      if i < j {
        RunSettles(cs[requested[i]], prefix, requested, lists, w, i + 1, j);
      } else {
        assert t.choices[..i + 1][i] == requested[i];
      }
  }

  /** Picks that end where another one is requested do not make the program succeed. */
  lemma {:induction false} AsksThenFails(p: Program, u: seq<nat>, i: nat)
    requires Asks(p, u, i) && i <= |u|
    ensures !AllSucceed(p, u, i)
    decreases p
  {
    match p
    case Branch(a, b) => AsksThenFails(if Asks(a, u, i) then a else b, u, i);
    case Choose(cs) =>
      if i < |u| {
        AsksThenFails(cs[u[i]], u, i + 1);
      }
  }

  /** Success depends only on the picks that are requested. */
  lemma {:induction false} RequestedPicksSuffice(p: Program, w: seq<nat>, c: seq<nat>, i: nat)
    requires AllSucceed(p, w, i) && c <= w && i <= |w|
    requires forall j: nat :: i <= j < |w| && Asks(p, w[..j], i) ==> j < |c|
    ensures AllSucceed(p, c, i) && Paths(p, c, i) == Paths(p, w, i)
    decreases p
  {
    match p
    case Branch(a, b) =>
      RequestedPicksSuffice(a, w, c, i);
      RequestedPicksSuffice(b, w, c, i);
    case Choose(cs) =>
      assert Asks(p, w[..i], i);
      forall j: nat | i + 1 <= j < |w| && Asks(cs[w[i]], w[..j], i + 1)
        ensures j < |c|
      {
        assert Asks(p, w[..j], i);
      }
      RequestedPicksSuffice(cs[w[i]], w, c, i + 1);
    case _ =>
  }
}
