/**
 The order in which vectors of choices are tried. Each choice has a list of candidates, known by their identity; a
 candidate that an earlier choice has picked is dismissed.
 */
module ReplayOrder {

  type Lists = seq<seq<int>>

  /** A position in the list of each of the first choices. */
  ghost predicate IsPartial(choices: seq<nat>, lists: Lists) {
    |choices| <= |lists| && forall k: nat :: k < |choices| ==> choices[k] < |lists[k]|
  }

  /** The candidate at position `c` of the next list is one that an earlier choice has picked. */
  predicate Taken(lists: Lists, picked: seq<nat>, c: nat)
    requires |picked| < |lists| && c < |lists[|picked|]|
  {
    exists k: nat :: k < |picked| && picked[k] < |lists[k]| && lists[k][picked[k]] == lists[|picked|][c]
  }

  /** The first position from `c` on in the next list whose candidate is not dismissed, or the end of that list. */
  function Free(lists: Lists, picked: seq<nat>, c: nat): (r: nat)
    requires |picked| < |lists| && c <= |lists[|picked|]|
    ensures c <= r <= |lists[|picked|]| && (r < |lists[|picked|]| ==> !Taken(lists, picked, r))
    ensures forall d: nat :: c <= d < r ==> Taken(lists, picked, d)
    decreases |lists[|picked|]| - c
  {
    if c < |lists[|picked|]| && Taken(lists, picked, c) then Free(lists, picked, c + 1) else c
  }

  /** Picks for the first choices that are pairwise different. */
  ghost predicate Different(choices: seq<nat>, lists: Lists) {
    IsPartial(choices, lists) && forall k: nat :: k < |choices| ==> !Taken(lists, choices[..k], choices[k])
  }

  function From(choices: seq<nat>, k: nat): nat {
    if k < |choices| then choices[k] else 0
  }

  /**
   The picks that running on from some choices leads to: the first candidate that is not dismissed at each later
   choice. Only the last of the choices may still have to be moved past dismissed candidates.
   */
  ghost predicate Completes(choices: seq<nat>, lists: Lists, w: seq<nat>) {
    && |w| == |lists| && IsPartial(choices, lists)
    && (forall k: nat :: k < |w| ==> w[k] == Free(lists, w[..k], From(choices, k)))
    && (forall k: nat :: k < |choices| - 1 ==> w[k] == choices[k])
  }

  ghost function Extend(lists: Lists, u: seq<nat>): (w: seq<nat>)
    requires |u| <= |lists|
    ensures |w| == |lists| && u <= w
    ensures forall k: nat :: |u| <= k < |w| ==> w[k] == Free(lists, w[..k], 0)
    decreases |lists| - |u|
  {
    if |u| == |lists| then u
    else
      var w := Extend(lists, u + [Free(lists, u, 0)]);
      assert w[..|u|] == u;
      w
  }

  ghost function Complete(choices: seq<nat>, lists: Lists): (w: seq<nat>)
    requires IsPartial(choices, lists)
    ensures |w| == |lists|
  {
    if choices == [] then Extend(lists, [])
    else
      var u := choices[..|choices| - 1];
      Extend(lists, u + [Free(lists, u, choices[|choices| - 1])])
  }

  lemma CompleteCompletes(choices: seq<nat>, lists: Lists)
    requires IsPartial(choices, lists) && (choices != [] ==> Different(choices[..|choices| - 1], lists))
    ensures Completes(choices, lists, Complete(choices, lists))
  {
    hide Different, Taken, Free, Extend;
    var w := Complete(choices, lists);
    if choices != [] {
      var u := choices[..|choices| - 1];
      assert w[..|u|] == u;
      forall k: nat | k < |u|
        ensures w[k] == Free(lists, w[..k], choices[k])
      {
        FreeIfDifferent(u, lists, k);
        assert u[..k] == w[..k];
      }
    }
  }

  lemma FreeIfDifferent(u: seq<nat>, lists: Lists, k: nat)
    requires Different(u, lists) && k < |u|
    ensures Free(lists, u[..k], u[k]) == u[k]
  {
  }

  /** The list of choices after one more request, at a choice whose predecessors have all been requested. */
  function Requested(choices: seq<nat>, lists: Lists, i: nat): (r: seq<nat>)
    requires i <= |choices| && i < |lists| && (i < |choices| ==> choices[i] <= |lists[i]|)
    ensures |r| == (if i == |choices| then i + 1 else |choices|) && r[..i] == choices[..i]
    ensures r[i] == Free(lists, choices[..i], From(choices, i))
    ensures forall k: nat :: k < |choices| && k != i ==> r[k] == choices[k]
  {
    var c := Free(lists, choices[..i], From(choices, i));
    if i == |choices| then choices + [c] else choices[i := c]
  }

  lemma RequestKeepsCompletion(choices: seq<nat>, lists: Lists, w: seq<nat>, i: nat)
    requires Completes(choices, lists, w) && i <= |choices| && i < |lists| && choices[..i] == w[..i]
    ensures var r := Requested(choices, lists, i);
            && r[i] == w[i] && r[..i + 1] == w[..i + 1]
            && (w[i] < |lists[i]| ==> Completes(r, lists, w))
  {
    var r := Requested(choices, lists, i);
    assert r[..i + 1] == r[..i] + [r[i]] && w[..i + 1] == w[..i] + [w[i]];
  }

  /**
   Picks in the order in which they are tried: lexicographic. Picks that extend others are neither before nor after.
   */
  ghost predicate LexLess(a: seq<nat>, b: seq<nat>) {
    exists k: nat :: k < |a| && FirstDifference(a, b, k) && a[k] < b[k]
  }

  ghost predicate FirstDifference(a: seq<nat>, b: seq<nat>, k: nat) {
    k < |a| && k < |b| && a[k] != b[k] && forall j: nat :: j < k ==> a[j] == b[j]
  }

  /** Two vectors that differ somewhere have a first difference, no later than there. */
  lemma {:induction false} Differ(a: seq<nat>, b: seq<nat>, j: nat) returns (d: nat)
    requires j < |a| && j < |b| && a[j] != b[j]
    ensures d <= j && FirstDifference(a, b, d)
  {
    if k: nat :| k < j && a[k] != b[k] {
      d := Differ(a, b, k);
    } else {
      d := j;
    }
  }

  ghost predicate NowhereLess(a: seq<nat>, b: seq<nat>, l: nat)
    requires l <= |a| && l <= |b|
  {
    forall k: nat :: k < l ==> a[k] <= b[k]
  }

  lemma LexByParts(a: seq<nat>, b: seq<nat>, l: nat)
    requires l < |a| && l < |b| && NowhereLess(a, b, l) && a[l] < b[l]
    ensures LexLess(a, b)
  {
    var d := Differ(a, b, l);
    assert a[d] < b[d];
  }

  lemma LexTransitive(a: seq<nat>, b: seq<nat>, c: seq<nat>)
    requires LexLess(a, b) && LexLess(b, c)
    ensures LexLess(a, c)
  {
    var k: nat :| k < |a| && FirstDifference(a, b, k) && a[k] < b[k];
    var l: nat :| l < |b| && FirstDifference(b, c, l) && b[l] < c[l];
    assert FirstDifference(a, c, if k < l then k else l);
  }

  /** Choices continued with first candidates. */
  function Pad(choices: seq<nat>, n: nat): (w: seq<nat>)
    requires |choices| <= n
    ensures |w| == n && choices <= w && forall k: nat :: |choices| <= k < n ==> w[k] == 0
  {
    choices + seq(n - |choices|, _ => 0)
  }

  /** Choices without the ones at the end that are at their last candidate. */
  function Pruned(choices: seq<nat>, lists: Lists): (r: seq<nat>)
    requires |choices| <= |lists|
    ensures r <= choices && (r != [] ==> r[|r| - 1] + 1 != |lists[|r| - 1]|)
    ensures forall k: nat :: |r| <= k < |choices| ==> choices[k] + 1 == |lists[k]|
  {
    if choices != [] && choices[|choices| - 1] + 1 == |lists[|choices| - 1]| then
      Pruned(choices[..|choices| - 1], lists)
    else choices
  }

  /** The last choice moved to its next candidate. */
  function Advanced(choices: seq<nat>): (r: seq<nat>)
    requires choices != []
    ensures |r| == |choices| && r[..|r| - 1] == choices[..|r| - 1] && r[|r| - 1] == choices[|r| - 1] + 1
  {
    choices[..|choices| - 1] + [choices[|choices| - 1] + 1]
  }

  /** The choices to try after a failure, none if there is nothing left to prune. */
  function Next(choices: seq<nat>, lists: Lists): (r: seq<nat>)
    requires |choices| <= |lists|
    ensures |r| <= |choices|
  {
    var p := Pruned(choices, lists);
    if p == [] then [] else Advanced(p)
  }

  lemma NextIsPartial(failed: seq<nat>, lists: Lists)
    requires IsPartial(failed, lists)
    ensures IsPartial(Next(failed, lists), lists)
  {
  }

  lemma NextCompletes(failed: seq<nat>, lists: Lists, w: seq<nat>)
    requires Completes(failed, lists, w) && Next(failed, lists) != []
    ensures var next := Next(failed, lists);
            IsPartial(next, lists) && Completes(next, lists, Complete(next, lists))
  {
    var next := Next(failed, lists);
    NextIsPartial(failed, lists);
    var u := next[..|next| - 1];
    assert u == failed[..|next| - 1];
    PrefixDifferent(failed, lists, w, |next| - 1);
    CompleteCompletes(next, lists);
  }

  /** All choices but the last are picks that differ. */
  lemma PrefixDifferent(choices: seq<nat>, lists: Lists, w: seq<nat>, l: nat)
    requires Completes(choices, lists, w) && l < |choices|
    ensures Different(choices[..l], lists)
  {
    var u := choices[..l];
    forall k: nat | k < l
      ensures !Taken(lists, u[..k], u[k])
    {
      assert u[k] == w[k] && u[..k] == w[..k];
    }
  }

  /** Running on passes over no different picks. */
  lemma NoneBetween(choices: seq<nat>, lists: Lists, w: seq<nat>, v: seq<nat>)
    requires Completes(choices, lists, w) && Different(v, lists) && LexLess(v, w)
    ensures LexLess(v, Pad(choices, |lists|))
  {
    var e: nat :| e < |v| && FirstDifference(v, w, e) && v[e] < w[e];
    assert v[..e] == w[..e] && !Taken(lists, v[..e], v[e]);
    assert v[e] < From(choices, e);
    assert FirstDifference(v, Pad(choices, |lists|), e);
  }

  ghost predicate Agree(a: seq<nat>, b: seq<nat>) {
    a <= b || b <= a
  }

  /** Picks that are neither before the failed choices nor after the next ones agree with the failed ones. */
  lemma BetweenSharesFailure(failed: seq<nat>, lists: Lists, v: seq<nat>)
    requires IsPartial(failed, lists) && Different(v, lists) && !LexLess(v, Pad(failed, |lists|))
    requires var next := Next(failed, lists); next == [] || LexLess(v, Pad(next, |lists|))
    ensures Agree(failed, v)
  {
    var f := Pad(failed, |lists|);
    if j: nat :| j < |failed| && j < |v| && v[j] != failed[j] {
      hide Next, Different;
      var d := Differ(v, f, j);
      BeyondNext(failed, lists, v, d);
    }
  }

  lemma BeyondNext(failed: seq<nat>, lists: Lists, v: seq<nat>, d: nat)
    requires IsPartial(failed, lists) && d < |v| && d < |failed| && v[d] < |lists[d]|
    requires (forall k: nat :: k < d ==> v[k] == failed[k]) && v[d] > failed[d]
    ensures var next := Next(failed, lists); next != [] && !LexLess(v, Pad(next, |lists|))
  {
    assert d < |Pruned(failed, lists)|;
    NotAfterNext(failed, Next(failed, lists), |lists|, v, d);
  }

  lemma NotAfterNext(failed: seq<nat>, next: seq<nat>, n: nat, v: seq<nat>, d: nat)
    requires d < |v| && d < |next| <= |failed| <= n
    requires (forall k: nat :: k < d ==> v[k] == failed[k]) && v[d] > failed[d]
    requires next == Advanced(failed[..|next|])
    ensures !LexLess(v, Pad(next, n))
  {
    var b := Pad(next, n);
    assert forall k: nat :: k < |next| ==> b[k] == if k == |next| - 1 then failed[k] + 1 else failed[k];
    forall e: nat | e < n && e < |v| && FirstDifference(v, b, e)
      ensures v[e] >= b[e]
    {
      if e > d {
        assert v[d] == b[d];
      }
    }
  }

  /** Nor does running on from the next choices pass over any that do not agree with the failed ones. */
  lemma FailsBeforeNext(failed: seq<nat>, next: seq<nat>, lists: Lists, w: seq<nat>, v: seq<nat>)
    requires IsPartial(next, lists) && (next == [] || LexLess(v, Complete(next, lists)))
    requires Completes(failed, lists, w) && next == Next(failed, lists)
    requires Different(v, lists) && !LexLess(v, w)
    ensures Agree(failed, v)
  {
    hide IsPartial, Different, LexLess, Completes, Next, NowhereLess;
    PadIsNowhereLater(failed, lists, w);
    if LexLess(v, Pad(failed, |lists|)) {
      LexMonotone(v, Pad(failed, |lists|), w);
    }
    if next != [] {
      NextCompletes(failed, lists, w);
      NoneBetween(next, lists, Complete(next, lists), v);
    }
    BetweenSharesFailure(failed, lists, v);
  }

  lemma PadIsNowhereLater(choices: seq<nat>, lists: Lists, w: seq<nat>)
    requires Completes(choices, lists, w)
    ensures IsPartial(choices, lists) && |w| == |lists| && NowhereLess(Pad(choices, |lists|), w, |lists|)
  {
  }

  lemma LexMonotone(v: seq<nat>, a: seq<nat>, b: seq<nat>)
    requires LexLess(v, a) && |a| == |b| && NowhereLess(a, b, |a|)
    ensures LexLess(v, b)
  {
    var d: nat :| d < |v| && FirstDifference(v, a, d) && v[d] < a[d];
    LexByParts(v, b, d);
  }

  /** Positions only move forward while choices are requested. */
  ghost predicate Grows(choices: seq<nat>, choices': seq<nat>) {
    |choices| <= |choices'| && forall k: nat :: k < |choices| ==> choices[k] <= choices'[k]
  }

  lemma GrowsOn(a: seq<nat>, b: seq<nat>, c: seq<nat>)
    requires Grows(a, b) && Grows(b, c)
    ensures Grows(a, c)
  {
  }

  lemma NextIsLater(choices: seq<nat>, failed: seq<nat>, lists: Lists)
    requires Grows(choices, failed) && |failed| <= |lists| && Next(failed, lists) != []
    ensures LexLess(Pad(choices, |lists|), Pad(Next(failed, lists), |lists|))
  {
    var next := Next(failed, lists);
    LexByParts(Pad(choices, |lists|), Pad(next, |lists|), |next| - 1);
  }

  /** The finitely many combinations of positions, for counting down the ones still to come. */
  ghost function Combinations(lists: Lists): (s: set<seq<nat>>)
    ensures forall w :: w in s <==> (|w| == |lists| && IsPartial(w, lists))
    decreases |lists|
  {
    if lists == [] then {[]}
    else
      var s := set v, c: nat | v in Combinations(lists[..|lists| - 1]) && c < |lists[|lists| - 1]| :: v + [c];
      LastSplitsOff(lists, s);
      s
  }

  lemma LastSplitsOff(lists: Lists, s: set<seq<nat>>)
    requires lists != []
    requires s == set v, c: nat | v in Combinations(lists[..|lists| - 1]) && c < |lists[|lists| - 1]| :: v + [c]
    ensures forall w :: w in s <==> (|w| == |lists| && IsPartial(w, lists))
    decreases |lists|, 0
  {
    hide IsPartial;
    var init, last := lists[..|lists| - 1], lists[|lists| - 1];
    forall w: seq<nat>
      ensures w in s <==> (|w| == |lists| && IsPartial(w, lists))
    {
      if |w| == |lists| {
        InitIsPartial(w, lists);
        assert w == w[..|w| - 1] + [w[|w| - 1]];
      }
    }
  }

  lemma InitIsPartial(w: seq<nat>, lists: Lists)
    requires |w| == |lists| > 0
    ensures IsPartial(w, lists) <==> IsPartial(w[..|w| - 1], lists[..|w| - 1]) && w[|w| - 1] < |lists[|w| - 1]|
  {
    var init := lists[..|w| - 1];
    assert forall k: nat :: k < |w| - 1 ==> init[k] == lists[k] && w[..|w| - 1][k] == w[k];
  }

  ghost function ToCome(lists: Lists, choices: seq<nat>): set<seq<nat>>
    requires |choices| <= |lists|
  {
    set v | v in Combinations(lists) && !LexLess(v, Pad(choices, |lists|))
  }

  lemma FewerToCome(lists: Lists, choices: seq<nat>, next: seq<nat>)
    requires IsPartial(choices, lists) && IsPartial(next, lists) && AllNonempty(lists)
    requires LexLess(Pad(choices, |lists|), Pad(next, |lists|))
    ensures ToCome(lists, next) < ToCome(lists, choices)
  {
    var a, b := Pad(choices, |lists|), Pad(next, |lists|);
    forall v | v in ToCome(lists, next)
      ensures v in ToCome(lists, choices)
    {
      if LexLess(v, a) {
        LexTransitive(v, a, b);
      }
    }
    assert a in ToCome(lists, choices) && a !in ToCome(lists, next);
  }

  ghost predicate AllNonempty(lists: Lists) {
    forall k: nat :: k < |lists| ==> lists[k] != []
  }
}
