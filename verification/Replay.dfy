/** The exploration loops as the source runs them, over lists of recorded branches and choices. */
module Replay {
  import opened ReplayOrder
  import opened ReplaySpec

  ghost predicate AllListed(p: Program, w: seq<nat>, paths: seq<seq<bool>>) {
    forall k: nat :: k < |paths| ==> Succeeds(p, w, 0, paths[k])
  }

  /** The exploration of a program has listed the paths before a prefix of branches, all of which succeed. */
  ghost predicate ListedUpTo(p: Program, w: seq<nat>, paths: seq<seq<bool>>, branches: seq<bool>) {
    && CanFollow(p, w, 0, branches) && AllListed(p, w, paths)
    && paths + Remaining(p, w, 0, branches) == Paths(p, w, 0)
  }

  /** One more successful run lists one more path; with no branch left to flip, that was the last. */
  lemma OneMoreListed(p: Program, w: seq<nat>, paths: seq<seq<bool>>, branches: seq<bool>, t: Trace)
    requires ListedUpTo(p, w, paths, branches) && TakesFirst(p, w, 0, branches, t) && t.outcome.Succeeded?
    ensures |paths| < |Paths(p, w, 0)|
    ensures Stripped(t.branches) == [] ==> paths + [t.branches] == Paths(p, w, 0) && AllSucceed(p, w, 0)
    ensures Stripped(t.branches) != [] ==> ListedUpTo(p, w, paths + [t.branches], Flipped(Stripped(t.branches)))
  {
    hide Paths, Remaining, CanFollow, Succeeds, AllSucceed, Stripped, Flipped;
    FlipContinues(p, w, 0, t.branches);
    assert AllListed(p, w, paths + [t.branches]);
    if Stripped(t.branches) == [] {
      EachPathThenAll(p, w, 0);
    } else {
      var rest := Remaining(p, w, 0, Flipped(Stripped(t.branches)));
      assert paths + ([t.branches] + rest) == (paths + [t.branches]) + rest;
    }
  }

  /** No vector that begins with some choices makes the program succeed. */
  ghost predicate FailsFrom(p: Program, choices: seq<nat>) {
    forall v: seq<nat> :: choices <= v ==> !AllSucceed(p, v, 0)
  }

  lemma FailedRunFails(p: Program, prefix: seq<bool>, choices: seq<nat>, lists: Lists)
    requires Fits(p, lists, 0) && IsPartial(choices, lists)
    requires Run(p, prefix, choices, lists, 0).outcome.Failed?
    ensures FailsFrom(p, Run(p, prefix, choices, lists, 0).choices)
  {
    forall v: seq<nat> | Run(p, prefix, choices, lists, 0).choices <= v
      ensures !AllSucceed(p, v, 0)
    {
      FailureIsLocal(p, prefix, choices, lists, v, 0);
    }
  }

  /** The choices from the `n`th on have been requested. */
  ghost predicate AskedSince(p: Program, w: seq<nat>, n: nat, choices: seq<nat>) {
    forall j: nat :: n <= j < |choices| && j < |w| ==> Asks(p, w[..j], 0)
  }

  lemma RunAsksSince(p: Program, prefix: seq<bool>, choices: seq<nat>, lists: Lists, w: seq<nat>, n: nat)
    requires Fits(p, lists, 0) && Completes(choices, lists, w) && n <= |choices| && AskedSince(p, w, n, choices)
    requires Completes(Run(p, prefix, choices, lists, 0).choices, lists, w)
    ensures AskedSince(p, w, n, Run(p, prefix, choices, lists, 0).choices)
  {
    hide Asks, Run;
    var t := Run(p, prefix, choices, lists, 0);
    forall j: nat | n <= j < |t.choices|
      ensures Asks(p, w[..j], 0)
    {
      if j >= |choices| {
        assert t.choices[..j] == w[..j];
        RunAddsWhatItAsks(p, prefix, choices, lists, 0, j);
      }
    }
  }

  /** The choices that the listed paths request have reached their final picks. */
  ghost predicate ListedSettled(p: Program, w: seq<nat>, paths: seq<seq<bool>>, choices: seq<nat>) {
    forall k: nat, j: nat :: k < |paths| && j < |w| && AsksOn(p, w, 0, j, paths[k]) ==> SettledAt(choices, w, j)
  }

  ghost predicate Settles(p: Program, w: seq<nat>, choices: seq<nat>) {
    forall j: nat :: j < |w| && Asks(p, w[..j], 0) ==> SettledAt(choices, w, j)
  }

  lemma StaysSettled(choices: seq<nat>, choices': seq<nat>, lists: Lists, w: seq<nat>, j: nat)
    requires Completes(choices', lists, w) && Grows(choices, choices') && SettledAt(choices, w, j)
    ensures SettledAt(choices', w, j)
  {
    assert w[j] == Free(lists, w[..j], From(choices', j));
  }

  lemma RunKeepsSettled(p: Program, prefix: seq<bool>, choices: seq<nat>, lists: Lists, w: seq<nat>,
                        paths: seq<seq<bool>>)
    requires Fits(p, lists, 0) && Completes(choices, lists, w) && ListedSettled(p, w, paths, choices)
    requires var t := Run(p, prefix, choices, lists, 0); t.outcome.Succeeded? && Completes(t.choices, lists, w)
    ensures var t := Run(p, prefix, choices, lists, 0); ListedSettled(p, w, paths + [t.branches], t.choices)
  {
    hide Run, AsksOn, SettledAt;
    var t := Run(p, prefix, choices, lists, 0);
    var more := paths + [t.branches];
    forall k: nat, j: nat | k < |more| && j < |w| && AsksOn(p, w, 0, j, more[k])
      ensures SettledAt(t.choices, w, j)
    {
      if k < |paths| {
        StaysSettled(choices, t.choices, lists, w, j);
      } else {
        RunSettles(p, prefix, choices, lists, w, 0, j);
      }
    }
  }

  lemma NothingListed(p: Program, w: seq<nat>, choices: seq<nat>)
    ensures ListedUpTo(p, w, [], []) && ListedSettled(p, w, [], choices) && AskedSince(p, w, |choices|, choices)
  {
    RemainingFromStart(p, w, 0);
  }

  lemma AllListedSettles(p: Program, w: seq<nat>, choices: seq<nat>)
    requires ListedSettled(p, w, Paths(p, w, 0), choices)
    ensures Settles(p, w, choices)
  {
    forall j: nat | j < |w| && Asks(p, w[..j], 0)
      ensures SettledAt(choices, w, j)
    {
      var k := AsksOnSomePath(p, w, 0, j);
    }
  }

  lemma CrashHasCause(p: Program, prefix: seq<bool>, choices: seq<nat>, lists: Lists)
    requires Fits(p, lists, 0) && IsPartial(choices, lists)
    requires Run(p, prefix, choices, lists, 0).outcome.Crashed?
    ensures !(CrashFree(p) && NeverDry(lists))
  {
    if CrashFree(p) && NeverDry(lists) {
      RunNeverCrashes(p, prefix, choices, lists, 0);
    }
  }

  lemma TakesFirstFrom(p: Program, prefix: seq<bool>, choices: seq<nat>, lists: Lists, w: seq<nat>,
                       paths: seq<seq<bool>>)
    requires Fits(p, lists, 0) && Completes(choices, lists, w) && ListedUpTo(p, w, paths, prefix)
    ensures var t := Run(p, prefix, choices, lists, 0);
            Completes(t.choices, lists, w) && CanFollow(p, w, 0, prefix) && TakesFirst(p, w, 0, prefix, t)
  {
    RunTakesFirst(p, prefix, choices, lists, w, 0);
  }

  /**
   Explores one state: re-runs it, drops the branches explored on both sides, flips the last one left, until none
   is left or a run fails. The choices requested on the way are kept.
   */
  method ExploreState(p: Program, choices: seq<nat>, lists: Lists, ghost w: seq<nat>)
    returns (outcome: Outcome, choices': seq<nat>, paths: seq<seq<bool>>)
    requires Fits(p, lists, 0) && Completes(choices, lists, w)
    ensures Completes(choices', lists, w) && Grows(choices, choices') && AskedSince(p, w, |choices|, choices')
    ensures outcome.Succeeded? ==> AllSucceed(p, w, 0) && paths == Paths(p, w, 0) && Settles(p, w, choices')
    ensures outcome.Failed? ==> FailsFrom(p, choices')
    ensures outcome.Crashed? ==> !(CrashFree(p) && NeverDry(lists))
  {
    hide Run, Completes, ListedUpTo, ListedSettled, AskedSince, TakesFirst, Settles, FailsFrom, AllSucceed,
         CrashFree, NeverDry, Paths, Fits;
    choices', paths := choices, [];
    var branches: seq<bool> := [];
    NothingListed(p, w, choices);
    while true
      invariant Completes(choices', lists, w) && Grows(choices, choices')
      invariant AskedSince(p, w, |choices|, choices')
      invariant ListedUpTo(p, w, paths, branches) && ListedSettled(p, w, paths, choices')
      decreases |Paths(p, w, 0)| - |paths|
    {
      CompletesIsPartial(choices', lists, w);
      TakesFirstFrom(p, branches, choices', lists, w, paths);
      RunAsksSince(p, branches, choices', lists, w, |choices|);
      var t := Run(p, branches, choices', lists, 0);
      if t.outcome.Succeeded? {
        RunKeepsSettled(p, branches, choices', lists, w, paths);
        OneMoreListed(p, w, paths, branches, t);
      } else if t.outcome.Failed? {
        FailedRunFails(p, branches, choices', lists);
        return Failed, t.choices, [];
      } else {
        CrashHasCause(p, branches, choices', lists);
        return Crashed, t.choices, [];
      }
      branches, choices' := t.branches, t.choices;
      paths := paths + [branches];
      while branches != [] && !branches[|branches| - 1]
        invariant Stripped(branches) == Stripped(t.branches)
      {
        branches := branches[..|branches| - 1];
      }
      if branches == [] {
        AllListedSettles(p, w, choices');
        return Succeeded, choices', paths;
      }
      assert branches[|branches| - 1 := false] == Flipped(branches);
      branches := branches[|branches| - 1 := false];
    }
  }

  ghost predicate AllFit(states: seq<Program>, lists: Lists) {
    forall k: nat :: k < |states| ==> Fits(states[k], lists, 0)
  }

  ghost predicate AllCrashFree(states: seq<Program>) {
    forall k: nat :: k < |states| ==> CrashFree(states[k])
  }

  ghost predicate AllStatesSucceed(states: seq<Program>, w: seq<nat>) {
    forall k: nat :: k < |states| ==> AllSucceed(states[k], w, 0)
  }

  /** No different picks before `w`, for however many choices the states request, make all states succeed. */
  ghost predicate NoneBefore(states: seq<Program>, lists: Lists, w: seq<nat>) {
    forall v: seq<nat> :: Different(v, lists) && LexLess(v, w) ==> !AllStatesSucceed(states, v)
  }

  ghost predicate NoneAtAll(states: seq<Program>, lists: Lists) {
    forall v: seq<nat> :: Different(v, lists) ==> !AllStatesSucceed(states, v)
  }

  lemma NoneBeforeStart(states: seq<Program>, lists: Lists)
    ensures IsPartial([], lists)
    ensures var w := Complete([], lists);
            Completes([], lists, w) && NoneBefore(states, lists, w) && AllAsked(states, w, [])
  {
    var w := Complete([], lists);
    CompleteCompletes([], lists);
    forall v: seq<nat> | Different(v, lists) && LexLess(v, w)
      ensures false
    {
      NoneBetween([], lists, w, v);
    }
  }

  /**
   A failure under some choices leaves nothing to find before the choices to try next, or anywhere if there are none.
   */
  lemma NonePassedOver(states: seq<Program>, k: nat, failed: seq<nat>, lists: Lists, w: seq<nat>)
    requires Completes(failed, lists, w) && NoneBefore(states, lists, w) && AllAsked(states, w, failed)
    requires k < |states| && FailsFrom(states[k], failed)
    ensures var next := Next(failed, lists);
            if next == [] then NoneAtAll(states, lists)
            else IsPartial(next, lists) && Completes(next, lists, Complete(next, lists))
                 && NoneBefore(states, lists, Complete(next, lists))
  {
    hide Completes, Different, AllSucceed, LexLess, IsPartial, AllAsked;
    CompletesIsPartial(failed, lists, w);
    NextIsPartial(failed, lists);
    var next := Next(failed, lists);
    if next != [] {
      NextCompletes(failed, lists, w);
    }
    forall v: seq<nat> | Different(v, lists) && (next == [] || LexLess(v, Complete(next, lists)))
      ensures !AllStatesSucceed(states, v)
    {
      if !LexLess(v, w) {
        FailsBeforeNext(failed, next, lists, w, v);
        if failed <= v {
          assert !AllSucceed(states[k], v, 0);
        } else {
          AskedForMore(states, failed, lists, w, v);
        }
      }
    }
  }

  /** Fewer picks than were requested do not make all states succeed. */
  lemma AskedForMore(states: seq<Program>, failed: seq<nat>, lists: Lists, w: seq<nat>, v: seq<nat>)
    requires Completes(failed, lists, w) && AllAsked(states, w, failed) && v < failed
    ensures !AllStatesSucceed(states, v)
  {
    PrefixIsPicked(failed, lists, w, |v|);
    assert v == w[..|v|];
    assert SomeAsks(states, w[..|v|]);
    var k: nat :| k < |states| && Asks(states[k], v, 0);
    AsksThenFails(states[k], v, 0);
  }

  /** Every choice has been requested by some state. */
  ghost predicate AllAsked(states: seq<Program>, w: seq<nat>, choices: seq<nat>) {
    forall j: nat :: j < |choices| && j < |w| ==> SomeAsks(states, w[..j])
  }

  ghost predicate SomeAsks(states: seq<Program>, u: seq<nat>) {
    exists k: nat :: k < |states| && Asks(states[k], u, 0)
  }

  lemma StillAsked(states: seq<Program>, k: nat, w: seq<nat>, choices: seq<nat>, choices': seq<nat>)
    requires k < |states| && AllAsked(states, w, choices) && AskedSince(states[k], w, |choices|, choices')
    ensures AllAsked(states, w, choices')
  {
  }

  lemma PrefixIsPicked(choices: seq<nat>, lists: Lists, w: seq<nat>, j: nat)
    requires Completes(choices, lists, w) && j < |choices|
    ensures |choices| <= |w| && choices[..j] == w[..j]
  {
  }

  lemma NextAsked(states: seq<Program>, lists: Lists, w: seq<nat>, failed: seq<nat>, next: seq<nat>, w': seq<nat>)
    requires AllAsked(states, w, failed) && Completes(failed, lists, w) && Completes(next, lists, w')
    requires next == Next(failed, lists)
    ensures AllAsked(states, w', next)
  {
    hide SomeAsks, Completes;
    CompletesIsPartial(failed, lists, w);
    forall j: nat | j < |next| && j < |w'|
      ensures SomeAsks(states, w'[..j])
    {
      PrefixIsPicked(failed, lists, w, j);
      PrefixIsPicked(next, lists, w', j);
      assert next[..j] == failed[..j];
    }
  }

  /** The states explored so far succeed, with all paths listed and all choices they request settled. */
  ghost predicate ExploredUpTo(states: seq<Program>, w: seq<nat>, n: nat, choices: seq<nat>,
                               results: seq<seq<seq<bool>>>)
    requires n <= |states|
  {
    && |results| == n && (forall k: nat :: k < n ==> results[k] == Paths(states[k], w, 0))
    && (forall k: nat :: k < n ==> AllSucceed(states[k], w, 0))
    && (forall k: nat :: k < n ==> Settles(states[k], w, choices))
  }

  lemma NoneExplored(states: seq<Program>, w: seq<nat>, choices: seq<nat>)
    ensures ExploredUpTo(states, w, 0, choices, []) && Grows(choices, choices)
  {
  }

  lemma OneMoreExplored(states: seq<Program>, lists: Lists, w: seq<nat>, choices: seq<nat>, choices': seq<nat>,
                        results: seq<seq<seq<bool>>>, paths: seq<seq<bool>>)
    requires |results| < |states| && ExploredUpTo(states, w, |results|, choices, results)
    requires Completes(choices', lists, w) && Grows(choices, choices')
    requires var p := states[|results|]; AllSucceed(p, w, 0) && paths == Paths(p, w, 0) && Settles(p, w, choices')
    ensures ExploredUpTo(states, w, |results| + 1, choices', results + [paths])
  {
    hide Completes, Grows, AllSucceed, Asks, SettledAt, Paths;
    forall k: nat | k < |results|
      ensures Settles(states[k], w, choices')
    {
      forall j: nat | j < |w| && Asks(states[k], w[..j], 0)
        ensures SettledAt(choices', w, j)
      {
        StaysSettled(choices, choices', lists, w, j);
      }
    }
  }

  /** Choices that some state has requested, all of whose requests are settled, are the picks themselves. */
  lemma AskedAreSettled(states: seq<Program>, lists: Lists, w: seq<nat>, choices: seq<nat>,
                        results: seq<seq<seq<bool>>>)
    requires Completes(choices, lists, w) && AllAsked(states, w, choices)
    requires ExploredUpTo(states, w, |states|, choices, results)
    ensures choices <= w && Different(choices, lists)
  {
    forall j: nat | j < |choices|
      ensures choices[j] == w[j] && !Taken(lists, choices[..j], choices[j])
    {
      assert SomeAsks(states, w[..j]);
      assert SettledAt(choices, w, j);
      assert choices[..j] == w[..j];
    }
  }

  lemma NextComesLater(start: seq<nat>, failed: seq<nat>, lists: Lists, w: seq<nat>)
    requires Grows(start, failed) && Completes(failed, lists, w) && AllNonempty(lists) && Next(failed, lists) != []
    ensures |start| <= |lists| && |Next(failed, lists)| <= |lists|
    ensures ToCome(lists, Next(failed, lists)) < ToCome(lists, start)
  {
    hide Completes, Next, LexLess;
    CompletesIsPartial(failed, lists, w);
    NextIsPartial(failed, lists);
    NextIsLater(start, failed, lists);
    FewerToCome(lists, start, Next(failed, lists));
  }

  /** What was found under the picks that running on leads to holds of the requested ones alone. */
  lemma Finished(states: seq<Program>, lists: Lists, w: seq<nat>, choices: seq<nat>, results: seq<seq<seq<bool>>>)
    requires Completes(choices, lists, w) && choices <= w && NoneBefore(states, lists, w)
    requires ExploredUpTo(states, w, |states|, choices, results)
    ensures AllStatesSucceed(states, choices) && NoneBefore(states, lists, choices)
    ensures |results| == |states| && forall k: nat :: k < |states| ==> results[k] == Paths(states[k], choices, 0)
  {
    hide AllSucceed, Paths, Asks, Completes, Different;
    forall k: nat | k < |states|
      ensures AllSucceed(states[k], choices, 0) && Paths(states[k], choices, 0) == Paths(states[k], w, 0)
    {
      assert Settles(states[k], w, choices);
      RequestedPicksSuffice(states[k], w, choices, 0);
    }
    forall v: seq<nat> | Different(v, lists) && LexLess(v, choices)
      ensures LexLess(v, w)
    {
      var d: nat :| d < |v| && FirstDifference(v, choices, d) && v[d] < choices[d];
      assert FirstDifference(v, w, d);
    }
  }

  datatype Result = Explored(choices: seq<nat>, paths: seq<seq<seq<bool>>>) | Exhausted | Aborted

  /** Explores one state after the other under the recorded choices, up to the first that does not succeed. */
  method ExploreAll(states: seq<Program>, choices: seq<nat>, lists: Lists, ghost w: seq<nat>)
    returns (outcome: Outcome, choices': seq<nat>, results: seq<seq<seq<bool>>>, ghost failed: nat)
    requires AllFit(states, lists) && Completes(choices, lists, w) && AllAsked(states, w, choices)
    ensures Completes(choices', lists, w) && Grows(choices, choices') && AllAsked(states, w, choices')
    ensures outcome.Succeeded? ==> ExploredUpTo(states, w, |states|, choices', results)
    ensures outcome.Failed? ==> failed < |states| && FailsFrom(states[failed], choices')
    ensures outcome.Crashed? ==> !(NeverDry(lists) && AllCrashFree(states))
  {
    hide Completes, AllAsked, ExploredUpTo, Grows, FailsFrom, AskedSince, Settles, AllSucceed, NeverDry, CrashFree,
         Paths, Fits;
    choices', results, failed := choices, [], 0;
    NoneExplored(states, w, choices);
    while |results| < |states|
      invariant |results| <= |states|
      invariant Completes(choices', lists, w) && Grows(choices, choices') && AllAsked(states, w, choices')
      invariant ExploredUpTo(states, w, |results|, choices', results)
    {
      var before := choices';
      var paths;
      outcome, choices', paths := ExploreState(states[|results|], choices', lists, w);
      StillAsked(states, |results|, w, before, choices');
      GrowsOn(choices, before, choices');
      if !outcome.Succeeded? {
        failed := |results|;
        return;
      }
      OneMoreExplored(states, lists, w, before, choices', results, paths);
      results := results + [paths];
    }
    outcome := Succeeded;
  }

  /**
   Drops the choices at their last candidate and moves the last one left to its next; there is none left exactly if
   the result is empty.
   */
  method MoveOn(failed: seq<nat>, lists: Lists) returns (choices: seq<nat>)
    requires |failed| <= |lists|
    ensures choices == Next(failed, lists)
  {
    choices := failed;
    while choices != [] && choices[|choices| - 1] + 1 == |lists[|choices| - 1]|
      invariant |choices| <= |lists| && Pruned(choices, lists) == Pruned(failed, lists)
    {
      choices := choices[..|choices| - 1];
    }
    if choices != [] {
      assert choices[|choices| - 1 := choices[|choices| - 1] + 1] == Advanced(choices);
      choices := choices[|choices| - 1 := choices[|choices| - 1] + 1];
    }
  }

  /**
   Explores all states under the recorded choices, moving on to the next ones after a failure, until all succeed.
   Position `k` in a list of candidates stands for the source's list without the first `k` of them.
   */
  method Search(states: seq<Program>, lists: Lists) returns (r: Result)
    requires AllFit(states, lists) && AllNonempty(lists)
    ensures r.Explored? ==>
              && Different(r.choices, lists)
              && AllStatesSucceed(states, r.choices) && NoneBefore(states, lists, r.choices)
              && |r.paths| == |states| && forall k: nat :: k < |states| ==> r.paths[k] == Paths(states[k], r.choices, 0)
    ensures r.Exhausted? ==> NoneAtAll(states, lists)
    ensures r.Aborted? ==> !(NeverDry(lists) && AllCrashFree(states))
  {
    hide Completes, NoneBefore, NoneAtAll, AllSucceed, AllAsked, ExploredUpTo, Grows, FailsFrom, NeverDry, AllCrashFree,
         Paths, AllFit, AllNonempty, Different, IsPartial, ToCome, LexLess, Complete, Next, AllStatesSucceed;
    var choices: seq<nat> := [];
    NoneBeforeStart(states, lists);
    ghost var w := Complete([], lists);
    while true
      invariant Completes(choices, lists, w) && NoneBefore(states, lists, w) && AllAsked(states, w, choices)
      decreases if |choices| <= |lists| then ToCome(lists, choices) else {}
    {
      var outcome, requested, results;
      ghost var k;
      outcome, requested, results, k := ExploreAll(states, choices, lists, w);
      CompletesIsPartial(requested, lists, w);
      if outcome.Crashed? {
        return Aborted;
      }
      if outcome.Succeeded? {
        AskedAreSettled(states, lists, w, requested, results);
        Finished(states, lists, w, requested, results);
        return Explored(requested, results);
      }
      NonePassedOver(states, k, requested, lists, w);
      var next := MoveOn(requested, lists);
      if next == [] {
        return Exhausted;
      }
      NextAsked(states, lists, w, requested, next, Complete(next, lists));
      NextComesLater(choices, requested, lists, w);
      choices, w := next, Complete(next, lists);
    }
  }

  /** Two choices, where the last candidate of the second is the first candidate of the first. */
  ghost predicate SharesCandidate(lists: Lists) {
    |lists| == 2 && |lists[0]| == 2 && |lists[1]| == 2
    && lists[1][1] == lists[0][0] && lists[0][1] !in lists[1] && lists[1][0] != lists[0][0]
  }

  lemma SharedRequests(lists: Lists, zero: seq<nat>, second: seq<nat>)
    requires SharesCandidate(lists) && |zero| == 1 && zero[0] == 0 && |second| == 2 && second[0] == 0 && second[1] == 1
    ensures Requested([], lists, 0) == zero && Requested(zero, lists, 1) == zero + [0]
    ensures Requested(second, lists, 0) == second && Requested(second, lists, 1)[1] == 2
  {
    var none: seq<nat> := [];
    assert !Taken(lists, none, 0);
    assert second[..0] == none;
    assert zero[..1] == zero == second[..1];
    assert Taken(lists, zero, 1) by {
      assert zero[0] < |lists[0]| && lists[0][zero[0]] == lists[|zero|][1];
    }
    assert !Taken(lists, zero, 0);
  }

  lemma SharedPicks(lists: Lists, w: seq<nat>)
    requires SharesCandidate(lists) && |w| == 2 && w[0] == 1 && w[1] == 0
    ensures Different(w, lists)
  {
    assert !Taken(lists, w[..0], w[0]) && !Taken(lists, w[..1], w[1]);
  }

  /** Succeeds only with the second candidate of its first choice and the first candidate of its second one. */
  function Picky(): Program {
    Choose([Choose([Fail, Fail]), Choose([Succeed, Fail])])
  }

  lemma PickyRuns(lists: Lists, zero: seq<nat>, next: seq<nat>)
    requires SharesCandidate(lists) && Fits(Picky(), lists, 0)
    requires |zero| == 1 && zero[0] == 0 && |next| == 2 && next[0] == 0 && next[1] == 1
    ensures Run(Picky(), [], [], lists, 0) == Trace([], zero + [0], Failed)
    ensures Run(Picky(), [], next, lists, 0).outcome.Crashed?
  {
    hide Free, Requested;
    SharedRequests(lists, zero, next);
    var first := Choose([Fail, Fail]);
    assert Picky().candidates[0] == first;
    assert Run(first, [], zero, lists, 1) == Run(Fail, [], zero + [0], lists, 2);
  }

  lemma BothFit(a: Program, b: Program, lists: Lists, i: nat)
    requires i < |lists| && |lists[i]| == 2 && Fits(a, lists, i + 1) && Fits(b, lists, i + 1)
    requires CrashFree(a) && CrashFree(b)
    ensures Fits(Choose([a, b]), lists, i) && CrashFree(Choose([a, b]))
  {
    var p := Choose([a, b]);
    assert forall c: nat :: c < 2 ==> p.candidates[c] == a || p.candidates[c] == b;
  }

  /**
   Moving on to a candidate that is dismissed, with none after it, aborts the search although a later vector would
   make the program succeed.
   */
  lemma DryListHidesSuccess(lists: Lists)
    requires SharesCandidate(lists)
    ensures var p, w, next := Picky(), [1, 0], [0, 1];
            && Fits(p, lists, 0) && CrashFree(p) && Different(w, lists) && AllSucceed(p, w, 0)
            && Run(p, [], [], lists, 0) == Trace([], [0] + [0], Failed)
            && Next([0] + [0], lists) == next && IsPartial(next, lists)
            && Run(p, [], next, lists, 0).outcome.Crashed?
  {
    hide Run, Taken, Free;
    var first, second := Choose([Fail, Fail]), Choose([Succeed, Fail]);
    BothFit(Fail, Fail, lists, 1);
    BothFit(Succeed, Fail, lists, 1);
    BothFit(first, second, lists, 0);
    var p := Picky();
    assert p.candidates == [first, second];
    SharedPicks(lists, [1, 0]);
    PickyRuns(lists, [0], [0, 1]);
    assert AllSucceed(second, [1, 0], 1);
    var failed: seq<nat> := [0] + [0];
    assert Pruned(failed, lists) == failed;
  }
}
